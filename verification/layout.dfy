/** The rule-driven layout engine of the configurable exporter: an ordered
    list of field rules turns one joined row into one fixed-width line. Each
    rule takes a fixed literal or a column of the row (with the bank columns
    replaced under the account override and the salary converted to cents),
    cuts the value to the rule's width and pads it with the rule's character
    on the left or on the right; the formatted fields are joined with no
    separator. */
module Layout {
  import opened Wrappers
  import opened Text
  import opened Table

  /** 'Direita' pads in front (rjust), 'Esquerda' pads behind (ljust). */
  datatype Justification = Left | Right

  /** One slot of the output layout. `source` names a column of the joined
      table and is ignored when `fixed` holds, in which case `literal` is
      emitted instead. */
  datatype FieldRule = FieldRule(
    name: string,
    source: string,
    width: nat,
    pad: char,
    just: Justification,
    fixed: bool,
    literal: string)

  /** `value[:width]` then `rjust(width, pad)` or `ljust(width, pad)`: always
      exactly `width` characters, the cut value at one end and padding at the
      other. */
  function FormatField(value: string, width: nat, pad: char, just: Justification): (r: string)
    ensures |r| == width
  {
    var cut := Take(value, width);
    if just == Right then Rjust(cut, width, pad) else Ljust(cut, width, pad)
  }

  lemma FormatFieldShape(value: string, width: nat, pad: char, just: Justification)
    ensures var r := FormatField(value, width, pad, just);
            var c := Take(value, width);
            && (just == Right ==> r[width - |c|..] == c && forall i :: 0 <= i < width - |c| ==> r[i] == pad)
            && (just == Left ==> r[..|c|] == c && forall i :: |c| <= i < width ==> r[i] == pad)
            && (|value| >= width ==> r == value[..width])
  {
  }

  /** The columns of the joined table (the roster's and the account file's). */
  const KnownColumns: set<string> := {"cpf", "nome", "matricula", "salario", "banco", "agencia", "conta"}

  /** What a bank column holds under the override: bank "041", branch
      "0000", account "0" (the account's padding supplies the other zeros). */
  function OverrideValue(column: string): string {
    if column == "banco" then "041" else if column == "agencia" then "0000" else "0"
  }

  /** `str(linha.get(column, ''))`: the text of a column of the joined row,
      "nan" for a missing cell, "" for a column the table does not have. The
      salary column is never read this way: it always goes through
      `SalaryText`. */
  function Lookup(row: Row, column: string): string {
    if column == "cpf" then row.cpf
    else if column == "nome" then CellText(row.nome)
    else if column == "matricula" then NumberText(row.matricula)
    else if column == "banco" then CellText(row.banco)
    else if column == "agencia" then CellText(row.agencia)
    else if column == "conta" then CellText(row.conta)
    else ""
  }

  /** `str(int(float(v) * 100))`, or "0" when the salary is missing or does
      not parse. */
  function SalaryText(salario: Option<int>): string {
    match salario
    case Some(cents) => IntToString(cents)
    case None => "0"
  }

  /** The value a rule takes from a row, before cutting and padding. */
  function RawValue(rule: FieldRule, row: Row, special: bool): string {
    if rule.fixed then rule.literal
    else if special && rule.source in BankColumns then OverrideValue(rule.source)
    else if rule.source == "salario" then SalaryText(row.salario)
    else Lookup(row, rule.source)
  }

  function FieldText(rule: FieldRule, row: Row, special: bool): string {
    FormatField(RawValue(rule, row, special), rule.width, rule.pad, rule.just)
  }

  function Fields(rules: seq<FieldRule>, row: Row, special: bool): seq<string> {
    seq(|rules|, k requires 0 <= k < |rules| => FieldText(rules[k], row, special))
  }

  function SumWidths(rules: seq<FieldRule>): nat {
    if rules == [] then 0 else rules[0].width + SumWidths(rules[1..])
  }

  /** The widths from rule `k` on are rule `k`'s width and the widths after it. */
  lemma SumWidthsFrom(rules: seq<FieldRule>, k: nat)
    requires k < |rules|
    ensures SumWidths(rules[k..]) == rules[k].width + SumWidths(rules[k + 1..])
  {
    assert rules[k..][1..] == rules[k + 1..];
  }

  /** The fields of one more rule are the fields before it and its own. */
  lemma FieldsStep(rules: seq<FieldRule>, row: Row, special: bool, i: nat)
    requires i < |rules|
    ensures Fields(rules[..i + 1], row, special) == Fields(rules[..i], row, special) + [FieldText(rules[i], row, special)]
  {
    var a := Fields(rules[..i + 1], row, special);
    var b := Fields(rules[..i], row, special) + [FieldText(rules[i], row, special)];
    assert |a| == |b|;
    forall k | 0 <= k <= i ensures a[k] == b[k] {
      assert rules[..i + 1][k] == rules[k];
      if k < i {
        assert rules[..i][k] == rules[k];
      }
    }
  }

  lemma {:induction false} FieldsLength(rules: seq<FieldRule>, row: Row, special: bool)
    ensures TotalLength(Fields(rules, row, special)) == SumWidths(rules)
    decreases |rules|
  {
    if rules != [] {
      var fs := Fields(rules, row, special);
      var tail := Fields(rules[1..], row, special);
      forall i | 0 <= i < |tail| ensures fs[1..][i] == tail[i] {
        assert rules[1..][i] == rules[i + 1];
      }
      assert fs[1..] == tail;
      FieldsLength(rules[1..], row, special);
    }
  }

  /** The line for `row` with the override decision given. */
  function LineWith(rules: seq<FieldRule>, row: Row, special: bool): (line: string)
    ensures |line| == SumWidths(rules)
  {
    FieldsLength(rules, row, special);
    Concat(Fields(rules, row, special))
  }

  /** The line the engine writes for `row`: its length is the sum of the rule
      widths whatever the row holds. */
  function Line(rules: seq<FieldRule>, row: Row): (line: string)
    ensures |line| == SumWidths(rules)
  {
    LineWith(rules, row, UsesOverride(row))
  }

  /** The lines written for `rows`, one per row, in order. */
  function Lines(rules: seq<FieldRule>, rows: seq<Row>): (r: seq<string>)
    ensures |r| == |rows|
  {
    if rows == [] then [] else Lines(rules, rows[..|rows| - 1]) + [Line(rules, rows[|rows| - 1])]
  }

  /** Line `i` of the output is the line written for row `i`. */
  lemma {:induction false} LinesAt(rules: seq<FieldRule>, rows: seq<Row>)
    ensures forall i :: 0 <= i < |rows| ==> Lines(rules, rows)[i] == Line(rules, rows[i])
    decreases |rows|
  {
    if rows != [] {
      var init := rows[..|rows| - 1];
      LinesAt(rules, init);
      forall i | 0 <= i < |rows| - 1 ensures Lines(rules, rows)[i] == Line(rules, rows[i]) {
        assert init[i] == rows[i];
      }
    }
  }

  lemma LinesStep(rules: seq<FieldRule>, rows: seq<Row>, i: nat)
    requires i < |rows|
    ensures Lines(rules, rows[..i + 1]) == Lines(rules, rows[..i]) + [Line(rules, rows[i])]
  {
    assert rows[..i + 1][..i] == rows[..i];
  }


  /** Field `k` occupies the `rules[k].width` characters that follow the
      widths of the rules before it. */
  lemma FieldsPrefix(rules: seq<FieldRule>, row: Row, special: bool, k: nat)
    requires k <= |rules|
    ensures Fields(rules, row, special)[..k] == Fields(rules[..k], row, special)
  {
    var fs := Fields(rules, row, special);
    var before := Fields(rules[..k], row, special);
    forall i | 0 <= i < k ensures fs[..k][i] == before[i] {
      assert rules[..k][i] == rules[i];
    }
  }

  lemma FieldOffset(rules: seq<FieldRule>, row: Row, special: bool, k: nat)
    requires k < |rules|
    ensures TotalLength(Fields(rules, row, special)[..k]) == SumWidths(rules[..k])
    ensures Fields(rules, row, special)[k] == FieldText(rules[k], row, special)
    ensures |Fields(rules, row, special)[k]| == rules[k].width
    ensures LineWith(rules, row, special) == Concat(Fields(rules, row, special))
  {
    FieldsPrefix(rules, row, special, k);
    FieldsLength(rules[..k], row, special);
  }

  lemma FieldBoundaries(rules: seq<FieldRule>, row: Row, special: bool, k: nat)
    requires k < |rules|
    ensures SumWidths(rules[..k]) + rules[k].width <= SumWidths(rules)
    ensures LineWith(rules, row, special)[SumWidths(rules[..k])..SumWidths(rules[..k]) + rules[k].width]
            == FieldText(rules[k], row, special)
  {
    var fs := Fields(rules, row, special);
    FieldOffset(rules, row, special, k);
    PartOfConcat(LineWith(rules, row, special), fs, k, SumWidths(rules[..k]),
                 SumWidths(rules[..k]) + rules[k].width, FieldText(rules[k], row, special));
  }

  /** The characters of slot `k` in the line written for `row`: exactly the
      rule's formatted field. */
  function Slot(rules: seq<FieldRule>, row: Row, k: nat): (r: string)
    requires k < |rules|
    ensures r == FieldText(rules[k], row, UsesOverride(row))
  {
    FieldBoundaries(rules, row, UsesOverride(row), k);
    Line(rules, row)[SumWidths(rules[..k])..SumWidths(rules[..k]) + rules[k].width]
  }

  /** A fixed rule writes its literal, cut and padded, at its place in every
      line, whatever the row and the override decision. */
  lemma FixedSlotIgnoresRow(rules: seq<FieldRule>, row1: Row, s1: bool, row2: Row, s2: bool, k: nat)
    requires k < |rules| && rules[k].fixed
    ensures var lo := SumWidths(rules[..k]);
            var hi := lo + rules[k].width;
            hi <= SumWidths(rules)
            && LineWith(rules, row1, s1)[lo..hi] == LineWith(rules, row2, s2)[lo..hi]
            && LineWith(rules, row1, s1)[lo..hi] == FormatField(rules[k].literal, rules[k].width, rules[k].pad, rules[k].just)
  {
    FieldBoundaries(rules, row1, s1, k);
    FieldBoundaries(rules, row2, s2, k);
  }

  /** The override changes only the banco/agencia/conta slots, which become
      "041"/"0000"/"0" cut and padded; every other slot is as without it. */
  lemma OverrideOnlyChangesBankSlots(rules: seq<FieldRule>, row: Row, k: nat)
    requires k < |rules|
    ensures var lo := SumWidths(rules[..k]);
            var hi := lo + rules[k].width;
            hi <= SumWidths(rules)
            && (if !rules[k].fixed && rules[k].source in BankColumns
                then LineWith(rules, row, true)[lo..hi]
                     == FormatField(OverrideValue(rules[k].source), rules[k].width, rules[k].pad, rules[k].just)
                else LineWith(rules, row, true)[lo..hi] == LineWith(rules, row, false)[lo..hi])
  {
    FieldBoundaries(rules, row, true, k);
    FieldBoundaries(rules, row, false, k);
  }

  /** A rule naming a column the joined table does not have reads "", so its
      slot is padding only. */
  lemma AbsentColumnIsPadding(rule: FieldRule, row: Row, special: bool)
    requires !rule.fixed && rule.source !in KnownColumns
    ensures FieldText(rule, row, special) == Repeat(rule.pad, rule.width)
  {
    var r := FieldText(rule, row, special);
    assert RawValue(rule, row, special) == "";
    FormatFieldShape("", rule.width, rule.pad, rule.just);
    assert forall i :: 0 <= i < rule.width ==> r[i] == rule.pad;
  }

  /** A zero-padded, right-justified salary rule writes `str(int(v * 100))`
      ("0" when the salary is missing or does not parse): zeros in front of
      the text when it fits, so a negative amount shows zeros, then '-', then
      its digits; the leading `width` characters when it does not. */
  lemma SalaryFieldShape(rule: FieldRule, row: Row, special: bool)
    requires !rule.fixed && rule.source == "salario"
    requires rule.pad == '0' && rule.just == Right
    ensures var text := if row.salario.Some? then IntToString(row.salario.value) else "0";
            && (|text| <= rule.width ==> FieldText(rule, row, special) == Repeat('0', rule.width - |text|) + text)
            && (|text| > rule.width ==> FieldText(rule, row, special) == text[..rule.width])
  {
    var text := SalaryText(row.salario);
    if |text| <= rule.width {
      assert Take(text, rule.width) == text;
      RjustPadsFront(text, rule.width, '0');
    }
  }

  /** A salary slot right-justified with '0' wide enough for the amount reads
      back, as a decimal number, as the amount in cents; a missing or
      unparsable salary gives a slot of zeros. */
  lemma SalarySlotReadsBack(rule: FieldRule, row: Row, special: bool)
    requires !rule.fixed && rule.source == "salario"
    requires rule.pad == '0' && rule.just == Right && rule.width >= 1
    requires row.salario.Some? ==> row.salario.value >= 0 && |NatToString(row.salario.value)| <= rule.width
    ensures AllDigits(FieldText(rule, row, special))
    ensures DigitsValue(FieldText(rule, row, special)) == row.salario.GetOr(0)
  {
    var n := row.salario.GetOr(0);
    assert NatToString(0) == "0";
    SalaryFieldShape(rule, row, special);
    LeadingZerosValue(rule.width - |NatToString(n)|, NatToString(n));
    NatToStringRoundTrip(n);
  }
}
