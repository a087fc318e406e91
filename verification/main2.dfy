/** main2.py: the script that introduced the account override. The roster is
    cleaned to the greatest registration per cpf and joined onto the account
    file; one line is written per joined row, in merge order. A row whose
    employee was not found gets blank employee values; a row whose employee
    was not found, or whose stripped account begins with 38 or 39, gets bank
    041, branch 0000 and account 0000000000. */
module MainV2 {
  import opened Wrappers
  import opened Text
  import opened Table
  import opened Legacy
  import Eligibility

  const PaymentDate: string := "20220220"
  const EmployerCnpj: string := "88131164000107"

  /** The name written: the employee's, or "" when not found. */
  function NameText(row: Row): string {
    if row.nome.Some? then row.nome.value else ""
  }

  /** The registration written: the employee's, or "0" when not found. */
  function RegistrationText(row: Row): string {
    if row.nome.Some? then NumberText(row.matricula) else "0"
  }

  /** The salary in cents: a missing amount counts as 0, and so does a row
      whose employee was not found. */
  function Cents(row: Row): int {
    if row.nome.Some? then row.salario.GetOr(0) else 0
  }

  /** Bank, branch and account as written before padding: the override
      triplet, or the account file's values as read (not stripped). */
  function BankValues(row: Row): (string, string, string) {
    if UsesOverride(row) then ("041", "0000", "0000000000")
    else (CellText(row.banco), CellText(row.agencia), CellText(row.conta))
  }

  /** The fourteen values of the line for `row`. */
  function RecordOf(row: Row): Record {
    var (banco, agencia, conta) := BankValues(row);
    Record(
      NameSlot(NameText(row)),
      ZeroPad(row.cpf, 11),
      ZeroPad(banco, 3),
      ZeroPad(agencia, 4),
      ZeroPad(conta, 10),
      ZeroPad(RegistrationText(row), 15),
      ZeroPad(IntToString(Cents(row)), 15),
      Repeat('0', 15),
      "00",
      Repeat(' ', 82),
      Repeat(' ', 8),
      PaymentDate,
      "J",
      EmployerCnpj)
  }

  function Line(row: Row): string {
    Assemble(RecordOf(row))
  }

  /** An employee who was not found is written with a blank name, a zero
      registration and a zero salary, and with the override triplet. */
  lemma NotFoundDefaults(row: Row)
    requires row.nome.None?
    ensures RecordOf(row).nome == Repeat(' ', 46)
    ensures RecordOf(row).matricula == Repeat('0', 15)
    ensures RecordOf(row).salario == Repeat('0', 15)
    ensures RecordOf(row).banco == "041" && RecordOf(row).agencia == "0000"
    ensures RecordOf(row).conta == "0000000000"
  {
    var r := RecordOf(row);
    assert r.nome == Repeat(' ', 46);
    RjustPadsFront("0", 15, '0');
    assert Repeat('0', 14) + "0" == Repeat('0', 15);
    assert IntToString(0) == "0";
  }

  /** The override is taken exactly when the employee is missing or the
      stripped account begins with 38 or 39; it writes 041, 0000 and
      0000000000, and otherwise the account file's own values end the bank,
      branch and account slots. */
  lemma OverrideRule(row: Row)
    ensures UsesOverride(row) <==> row.nome.None? || Eligibility.ExcludedAccount(CellText(row.conta))
    ensures UsesOverride(row) ==>
              RecordOf(row).banco == "041" && RecordOf(row).agencia == "0000"
              && RecordOf(row).conta == "0000000000"
    ensures !UsesOverride(row) ==>
              var r := RecordOf(row);
              && r.banco[|r.banco| - |CellText(row.banco)|..] == CellText(row.banco)
              && r.agencia[|r.agencia| - |CellText(row.agencia)|..] == CellText(row.agencia)
              && r.conta[|r.conta| - |CellText(row.conta)|..] == CellText(row.conta)
  {
    Eligibility.ExcludedAccountChars(CellText(row.conta));
    RjustShape(CellText(row.banco), 3, '0');
    RjustShape(CellText(row.agencia), 4, '0');
    RjustShape(CellText(row.conta), 10, '0');
  }

  /** The salary slot holds the amount times 100, zero-padded to 15 digits:
      read back as a number it is the amount in cents (0 for a missing amount
      or a missing employee). */
  lemma SalarySlot(row: Row)
    requires 0 <= Cents(row) && |NatToString(Cents(row))| <= 15
    ensures |RecordOf(row).salario| == 15
    ensures AllDigits(RecordOf(row).salario)
    ensures DigitsValue(RecordOf(row).salario) == Cents(row)
  {
    ZeroPadReadsBack(Cents(row), 15);
  }

  /** The values of `row` are no wider than their slots. */
  predicate ValuesFit(row: Row) {
    var (banco, agencia, conta) := BankValues(row);
    && |row.cpf| <= 11 && |banco| <= 3 && |agencia| <= 4 && |conta| <= 10
    && |RegistrationText(row)| <= 15 && |IntToString(Cents(row))| <= 15
  }

  /** When the values fit, the line is 234 characters: the name in 0-46, the
      salary in 89-104, fifteen zeros for the 13th salary, occurrence "00",
      82 and 8 spaces, the date 20220220, the type "J" and the employer CNPJ
      in 220-234. */
  lemma LineLayout(row: Row)
    requires ValuesFit(row)
    ensures |Line(row)| == 234
    ensures Line(row)[0..46] == RecordOf(row).nome
    ensures Line(row)[89..104] == RecordOf(row).salario
    ensures Line(row)[104..119] == Repeat('0', 15)
    ensures Line(row)[119..121] == "00"
    ensures Line(row)[121..203] == Repeat(' ', 82)
    ensures Line(row)[203..211] == Repeat(' ', 8)
    ensures Line(row)[211..219] == "20220220"
    ensures Line(row)[219..220] == "J"
    ensures Line(row)[220..234] == "88131164000107"
  {
    var r := RecordOf(row);
    var w := SlotWidths(8);
    assert Fits(r, w);
    StandardOffsets(8);
    Placement(r, w, 0);
    Placement(r, w, 6);
    Placement(r, w, 7);
    Placement(r, w, 8);
    Placement(r, w, 9);
    Placement(r, w, 10);
    Placement(r, w, 11);
    Placement(r, w, 12);
    Placement(r, w, 13);
  }

  /** The script: clean-up, join in merge order, then one line per joined
      row, so line `i` belongs to account row `i`. */
  method Process(emps: seq<Employee>, accts: seq<Account>) returns (lines: seq<string>)
    ensures |lines| == |accts|
    ensures forall i :: 0 <= i < |accts| ==> lines[i] == Line(MergedRows(emps, accts)[i])
  {
    MergedRowsFollowAccounts(emps, accts);
    var rows := JoinAccounts(accts, Deduplicate(emps));
    lines := WriteLines(rows, Line);
  }
}
