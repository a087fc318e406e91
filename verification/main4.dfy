/** OLD_VERS/main4.py: the first desktop version. Duplicate removal is
    switched off, so every roster row with an account's cpf gets its own
    line; the joined rows are sorted by name; the per-row values and the
    38/39 override are those of main2.py. The line differs from main2.py's:
    the salary is written in whole units (no scaling by 100) and twice, in
    the salary and the second-amount slots; the occurrence code is two
    spaces; the payment date is the day of the run. */
module MainV4 {
  import opened Text
  import opened Table
  import opened Legacy
  import MainV2

  const EmployerCnpj: string := "88131164000107"

  /** The values a row contributes before padding: name, cpf, bank, branch,
      account, registration and the salary in cents. */
  datatype Values = Values(
    nome: string, cpf: string, banco: string, agencia: string, conta: string,
    matricula: string, cents: int)

  /** The fourteen slots of the desktop versions' line. `date` is the
      payment date as written ("YYYYMMDD"). */
  function RecordOf(v: Values, date: string): Record {
    var salario := ZeroPad(IntToString(Units(v.cents)), 15);
    Record(
      NameSlot(v.nome),
      ZeroPad(v.cpf, 11),
      ZeroPad(v.banco, 3),
      ZeroPad(v.agencia, 4),
      ZeroPad(v.conta, 10),
      ZeroPad(v.matricula, 15),
      salario,
      salario,
      "  ",
      Repeat(' ', 82),
      Repeat(' ', 8),
      date,
      "J",
      EmployerCnpj)
  }

  function FormatLine(v: Values, date: string): string {
    Assemble(RecordOf(v, date))
  }

  /** The values of a joined row: those of main2.py (blank name, registration
      "0" and salary 0 for a missing employee; the override triplet or the
      unstripped originals). */
  function ValuesOf(row: Row): Values {
    var (banco, agencia, conta) := MainV2.BankValues(row);
    Values(MainV2.NameText(row), row.cpf, banco, agencia, conta,
           MainV2.RegistrationText(row), MainV2.Cents(row))
  }

  function Line(row: Row, date: string): string {
    FormatLine(ValuesOf(row), date)
  }

  /** The salary is written twice, as whole units: `int()` of the amount
      drops the cents, so the slot read back as a number is the amount
      rounded down to a whole unit. */
  lemma SalaryTwice(v: Values, date: string)
    requires 0 <= v.cents && |NatToString(Units(v.cents))| <= 15
    ensures RecordOf(v, date).segundo == RecordOf(v, date).salario
    ensures |RecordOf(v, date).salario| == 15 && AllDigits(RecordOf(v, date).salario)
    ensures DigitsValue(RecordOf(v, date).salario) * 100 <= v.cents
            < (DigitsValue(RecordOf(v, date).salario) + 1) * 100
  {
    ZeroPadReadsBack(Units(v.cents), 15);
  }

  /** The values are no wider than their slots. */
  predicate ValuesFit(v: Values) {
    && |v.cpf| <= 11 && |v.banco| <= 3 && |v.agencia| <= 4 && |v.conta| <= 10
    && |v.matricula| <= 15 && |IntToString(Units(v.cents))| <= 15
  }

  /** When the values fit, the line is 226 characters plus the date: the
      name in 0-46, the same salary in 89-104 and 104-119, two spaces for the
      occurrence code, 82 and 8 spaces, then the date, "J" and the employer
      CNPJ. */
  lemma LineLayout(v: Values, date: string)
    requires ValuesFit(v)
    ensures |FormatLine(v, date)| == 226 + |date|
    ensures FormatLine(v, date)[0..46] == RecordOf(v, date).nome
    ensures FormatLine(v, date)[89..104] == FormatLine(v, date)[104..119] == RecordOf(v, date).salario
    ensures FormatLine(v, date)[119..121] == "  "
    ensures FormatLine(v, date)[121..203] == Repeat(' ', 82)
    ensures FormatLine(v, date)[203..211] == Repeat(' ', 8)
    ensures FormatLine(v, date)[211..211 + |date|] == date
    ensures FormatLine(v, date)[211 + |date|..212 + |date|] == "J"
    ensures FormatLine(v, date)[212 + |date|..226 + |date|] == "88131164000107"
  {
    var r := RecordOf(v, date);
    var w := SlotWidths(|date|);
    assert Fits(r, w);
    StandardOffsets(|date|);
    Placement(r, w, 0);
    Placement(r, w, 6);
    Placement(r, w, 7);
    Placement(r, w, 8);
    Placement(r, w, 9);
    Placement(r, w, 10);
    Placement(r, w, 11);
    Placement(r, w, 12);
    Placement(r, w, 13);
  }

  /** `processar_arquivos`: sort the roster by registration (duplicates
      kept), join onto the accounts, sort by name, then one line per row;
      `date` stands for today's date. */
  method Process(emps: seq<Employee>, accts: seq<Account>, date: string) returns (lines: seq<string>)
    ensures |lines| == |AllMatchRows(emps, accts)| >= |accts|
    ensures forall i :: 0 <= i < |lines| ==> lines[i] == Line(AllMatchRows(emps, accts)[i], date)
  {
    AllMatchRowsKeepEveryPair(emps, accts);
    var ordered := SortByRegistration(emps);
    var rows := SortByName(JoinAccounts(accts, ordered));
    assert rows == AllMatchRows(emps, accts);
    lines := WriteLines(rows, (r: Row) => Line(r, date));
  }
}
