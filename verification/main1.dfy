/** main.py: the first script. The roster is cleaned to the greatest
    registration per cpf and joined onto the account file. A row whose
    employee was not found becomes a comment line naming its cpf and account;
    every other row becomes a record with the account file's own bank, branch
    and account (there is no override), a name padded to 46 but never cut,
    and a blank employer CNPJ. */
module MainV1 {
  import opened Wrappers
  import opened Text
  import opened Table
  import opened Legacy
  import Eligibility

  const NotFoundPrefix: string := "# CPF NÃO ENCONTRADO: "
  const AccountPrefix: string := " (Conta: "

  /** The comment written for a row whose employee was not found. */
  function NotFoundComment(row: Row): string {
    NotFoundPrefix + row.cpf + AccountPrefix + CellText(row.conta) + ")"
  }

  /** The fourteen values of the record written for a found employee. */
  function RecordOf(row: Row): Record {
    Record(
      Ljust(CellText(row.nome), 46, ' '),
      ZeroPad(row.cpf, 11),
      ZeroPad(CellText(row.banco), 3),
      ZeroPad(CellText(row.agencia), 4),
      ZeroPad(CellText(row.conta), 10),
      ZeroPad(NumberText(row.matricula), 15),
      ZeroPad(IntToString(row.salario.GetOr(0)), 15),
      Repeat('0', 15),
      "00",
      Repeat(' ', 82),
      Repeat(' ', 8),
      "20220220",
      "J",
      Repeat(' ', 14))
  }

  /** The text written for one joined row. */
  function Line(row: Row): string {
    if row.nome.None? then NotFoundComment(row) else Assemble(RecordOf(row))
  }

  /** A row whose employee was not found is written as a comment: it begins
      with "# CPF NÃO ENCONTRADO: ", the cpf follows, then " (Conta: ", the
      account as read, and a closing parenthesis. */
  lemma NotFoundLine(row: Row)
    requires row.nome.None?
    ensures |Line(row)| == |NotFoundPrefix| + |row.cpf| + |AccountPrefix| + |CellText(row.conta)| + 1
    ensures Line(row)[..|NotFoundPrefix|] == NotFoundPrefix
    ensures Line(row)[|NotFoundPrefix|..|NotFoundPrefix| + |row.cpf|] == row.cpf
    ensures Line(row)[|NotFoundPrefix| + |row.cpf| + |AccountPrefix|..|Line(row)| - 1] == CellText(row.conta)
    ensures Line(row)[|Line(row)| - 1] == ')'
  {
    var p, c := NotFoundPrefix, row.cpf;
    var line := Line(row);
    assert line == p + c + AccountPrefix + CellText(row.conta) + ")";
    assert line[..|p|] == p;
    assert line[|p|..|p| + |c|] == c;
  }

  /** main.py has no override: a found employee's bank, branch and account
      slots end with the account file's own values. */
  lemma NoOverride(row: Row)
    requires row.nome.Some?
    ensures var r := RecordOf(row);
            && r.banco[|r.banco| - |CellText(row.banco)|..] == CellText(row.banco)
            && r.agencia[|r.agencia| - |CellText(row.agencia)|..] == CellText(row.agencia)
            && r.conta[|r.conta| - |CellText(row.conta)|..] == CellText(row.conta)
  {
    RjustShape(CellText(row.banco), 3, '0');
    RjustShape(CellText(row.agencia), 4, '0');
    RjustShape(CellText(row.conta), 10, '0');
  }

  /** An excluded account holds a '3' somewhere: its stripped text starts
      with one. */
  lemma ExcludedAccountHasThree(s: string) returns (k: nat)
    requires Eligibility.ExcludedAccount(s)
    ensures k < |s| && s[k] == '3'
  {
    Eligibility.ExcludedAccountChars(s);
    StripShape(s);
    k :| 0 <= k <= |s| - |Strip(s)| && Strip(s) == s[k..k + |Strip(s)|]
         && AllSpace(s[..k]) && AllSpace(s[k + |Strip(s)|..]);
    assert s[k] == Strip(s)[0];
  }

  /** An account that the later scripts replace by 0000000000 (one whose
      stripped text begins with 38 or 39) is written as it is by main.py:
      its slot is never the zeroed account. */
  lemma ExcludedAccountKept(row: Row)
    requires Eligibility.ExcludedAccount(CellText(row.conta))
    ensures RecordOf(row).conta != "0000000000"
  {
    var s := CellText(row.conta);
    var k := ExcludedAccountHasThree(s);
    var r := ZeroPad(s, 10);
    RjustShape(s, 10, '0');
    assert r[|r| - |s| + k] == s[k];
    assert RecordOf(row).conta == r;
  }

  /** The salary slot of a found employee holds the amount in cents,
      zero-padded to 15 digits (0 when the amount is missing). */
  lemma SalarySlot(row: Row)
    requires row.nome.Some?
    requires 0 <= row.salario.GetOr(0) && |NatToString(row.salario.GetOr(0))| <= 15
    ensures |RecordOf(row).salario| == 15
    ensures AllDigits(RecordOf(row).salario)
    ensures DigitsValue(RecordOf(row).salario) == row.salario.GetOr(0)
  {
    ZeroPadReadsBack(row.salario.GetOr(0), 15);
  }

  /** Every value but the name is no wider than its slot. */
  predicate ValuesFit(row: Row) {
    && |row.cpf| <= 11 && |CellText(row.banco)| <= 3 && |CellText(row.agencia)| <= 4
    && |CellText(row.conta)| <= 10 && |NumberText(row.matricula)| <= 15
    && |IntToString(row.salario.GetOr(0))| <= 15
  }

  /** The name is padded but never cut: a found employee's line is
      188 characters plus the longer of the name and 46, and the cpf starts
      where the name ends. A 47-character name makes a 235-character line
      with every later field one place to the right. */
  lemma LongNameShiftsLine(row: Row)
    requires row.nome.Some? && ValuesFit(row)
    ensures |Line(row)| == Max(|row.nome.value|, 46) + 188
    ensures Line(row)[Max(|row.nome.value|, 46)..Max(|row.nome.value|, 46) + 11] == ZeroPad(row.cpf, 11)
    ensures |row.nome.value| <= 46 ==> |Line(row)| == 234
  {
    var r := RecordOf(row);
    var nw := Max(|row.nome.value|, 46);
    var w := WideNameWidths(nw, 8);
    assert Fits(r, w);
    WideNameOffsets(nw, 8);
    Placement(r, w, 1);
  }

  /** The row loop: one text per joined row, in merge order. */
  method WriteLines(rows: seq<Row>) returns (lines: seq<string>)
    ensures |lines| == |rows|
    ensures forall i :: 0 <= i < |rows| ==> lines[i] == Line(rows[i])
  {
    lines := [];
    for i := 0 to |rows|
      invariant |lines| == i
      invariant forall k :: 0 <= k < i ==> lines[k] == Line(rows[k])
    {
      if rows[i].nome.None? {
        lines := lines + [NotFoundComment(rows[i])];
      } else {
        lines := lines + [Assemble(RecordOf(rows[i]))];
      }
    }
  }

  /** The script: line `i` is for account row `i`. It is the comment when
      the joined row has no name: for every account whose cpf is not in the
      roster, and also for a matched roster row whose name cell is blank.
      Every other row gets the fixed-width record. */
  method Process(emps: seq<Employee>, accts: seq<Account>) returns (lines: seq<string>)
    ensures |lines| == |accts|
    ensures forall i :: 0 <= i < |accts| ==> lines[i] == Line(MergedRows(emps, accts)[i])
    ensures forall i :: 0 <= i < |accts| && MergedRows(emps, accts)[i].nome.None?
              ==> lines[i] == NotFoundComment(MergedRows(emps, accts)[i])
    ensures forall i :: 0 <= i < |accts| && MergedRows(emps, accts)[i].nome.Some?
              ==> lines[i] == Assemble(RecordOf(MergedRows(emps, accts)[i]))
    ensures forall i :: 0 <= i < |accts| && accts[i].cpf !in Cpfs(emps)
              ==> lines[i] == NotFoundComment(MergedRows(emps, accts)[i])
  {
    MergedRowsFollowAccounts(emps, accts);
    var rows := JoinAccounts(accts, Deduplicate(emps));
    lines := WriteLines(rows);
  }
}
