/** OLD_VERS/main5.py: the configurable exporter. The roster is cleaned to
    the greatest registration per cpf, joined onto the account file (every
    account row kept), sorted by name with missing names last, and each row is
    written through the rule-driven layout engine. */
module MainV5 {
  import opened Wrappers
  import opened Text
  import opened Table
  import opened Layout
  import Eligibility

  /** The layout the tool starts with: 14 slots, 234 characters. */
  function DefaultRules(): seq<FieldRule> {
    [ FieldRule("NOME", "nome", 46, ' ', Left, false, ""),
      FieldRule("CPF", "cpf", 11, '0', Right, false, ""),
      FieldRule("BANCO", "banco", 3, '0', Right, false, ""),
      FieldRule("AGENCIA", "agencia", 4, '0', Right, false, ""),
      FieldRule("CONTA", "conta", 10, '0', Right, false, ""),
      FieldRule("MATRICULA", "matricula", 15, '0', Right, false, ""),
      FieldRule("SALARIO", "salario", 15, '0', Right, false, ""),
      FieldRule("VALOR CAL  (13º)", "", 15, '0', Right, true, "0"),
      FieldRule("COD OCORRENCIA (BRANCOS*2)", "", 2, '0', Right, true, "0"),
      FieldRule("DESC OCORR (BRANCOS*82)", "", 82, ' ', Left, true, ""),
      FieldRule("DATA AGENC (BRANCOS*8)", "", 8, ' ', Left, true, ""),
      FieldRule("DATA PAGAMENTO", "", 8, '0', Right, true, "20220220"),
      FieldRule("TIPO EMPREGADOR(J)", "", 1, ' ', Left, true, "J"),
      FieldRule("EMPREGADOR(CNPJ)", "", 14, ' ', Left, true, "") ]
  }

  /** The width of a fourteen-slot layout, slot by slot. */
  lemma FourteenSlotWidth(d: seq<FieldRule>)
    requires |d| == 14
    ensures SumWidths(d) == d[0].width + d[1].width + d[2].width + d[3].width + d[4].width
                            + d[5].width + d[6].width + d[7].width + d[8].width + d[9].width
                            + d[10].width + d[11].width + d[12].width + d[13].width
  {
    assert d[14..] == [];
    SumWidthsFrom(d, 13);
    SumWidthsFrom(d, 12);
    SumWidthsFrom(d, 11);
    SumWidthsFrom(d, 10);
    SumWidthsFrom(d, 9);
    SumWidthsFrom(d, 8);
    SumWidthsFrom(d, 7);
    SumWidthsFrom(d, 6);
    SumWidthsFrom(d, 5);
    SumWidthsFrom(d, 4);
    SumWidthsFrom(d, 3);
    SumWidthsFrom(d, 2);
    SumWidthsFrom(d, 1);
    SumWidthsFrom(d, 0);
    assert d[0..] == d;
  }

  /** The default layout's widths add up to 234, so every line it writes
      (whose length is the sum of the widths) is 234 characters long. */
  lemma DefaultLayoutWidth()
    ensures SumWidths(DefaultRules()) == 234
  {
    FourteenSlotWidth(DefaultRules());
  }

  /** The body of the loop over the rules for one rule: the value (literal,
      override or column), the salary converted to cents, then the cut and
      the padding. */
  method RenderField(rule: FieldRule, row: Row, special: bool) returns (formatted: string)
    ensures formatted == FieldText(rule, row, special)
    ensures |formatted| == rule.width
  {
    var value: string;
    if rule.fixed {
      value := rule.literal;
    } else if special && rule.source in BankColumns {
      if rule.source == "banco" {
        value := "041";
      } else if rule.source == "agencia" {
        value := "0000";
      } else {
        value := "0";
      }
    } else {
      value := Lookup(row, rule.source);
    }
    if rule.source == "salario" && !rule.fixed {
      value := SalaryText(row.salario);
    }
    value := Take(value, rule.width);
    if rule.just == Right {
      formatted := Rjust(value, rule.width, rule.pad);
    } else {
      formatted := Ljust(value, rule.width, rule.pad);
    }
  }

  /** The 38/39 test as the exporter writes it: no name (employee not
      found), or a stripped account starting with "39" or "38". */
  method IsSpecial(row: Row) returns (special: bool)
    ensures special <==> !row.nome.Some? || Eligibility.ExcludedAccount(CellText(row.conta))
    ensures special == UsesOverride(row)
  {
    var found := row.nome.Some?;
    var conta := Strip(CellText(row.conta));
    special := !found || StartsWith(conta, "39") || StartsWith(conta, "38");
  }

  /** The loop over the rules for one row: the 38/39 decision once, then the
      formatted fields appended in rule order and joined. */
  method RenderRow(rules: seq<FieldRule>, row: Row) returns (line: string)
    ensures line == Line(rules, row)
    ensures |line| == SumWidths(rules)
  {
    var special := IsSpecial(row);
    var parts: seq<string> := [];
    for i := 0 to |rules|
      invariant |parts| == i
      invariant parts == Fields(rules[..i], row, special)
    {
      var formatted := RenderField(rules[i], row, special);
      FieldsStep(rules, row, special, i);
      parts := parts + [formatted];
    }
    assert rules[..|rules|] == rules;
    line := Concat(parts);
  }

  /** `processar_arquivos_dinamico`: the lines written to the output file,
      one per row of `Rows`, in that order, each newline-terminated. */
  method Process(emps: seq<Employee>, accts: seq<Account>, rules: seq<FieldRule>) returns (lines: seq<string>)
    ensures |lines| == |SortedRows(emps, accts)|
    ensures forall i :: 0 <= i < |lines| ==> lines[i] == Line(rules, SortedRows(emps, accts)[i])
    ensures forall i :: 0 <= i < |lines| ==> |lines[i]| == SumWidths(rules)
  {
    var rows := SortByName(MergedRows(emps, accts));
    lines := [];
    for i := 0 to |rows|
      invariant |lines| == i
      invariant forall k :: 0 <= k < i ==> lines[k] == Line(rules, rows[k])
    {
      var line := RenderRow(rules, rows[i]);
      lines := lines + [line];
    }
  }
}
