/** OLD_VERS/main6.py: the configurable exporter of OLD_VERS/main5.py, which
    in the same pass over the rules also fills one validation record per line
    (a dictionary keyed by column) and, when there is at least one line,
    writes those records as a validation table whose priority columns come
    first. */
module MainV6 {
  import opened Wrappers
  import opened Text
  import opened Table
  import opened Layout
  import MainV5

  /** The layout the tool starts with: 14 slots, 234 characters, named after
      the bank's field codes. */
  function DefaultRules(): seq<FieldRule> {
    [ FieldRule("NC02NOMEC46", "nome", 46, ' ', Left, false, ""),
      FieldRule("NC02CPFC11", "cpf", 11, '0', Right, false, ""),
      FieldRule("NC02BANCOC03", "banco", 3, '0', Right, false, ""),
      FieldRule("NC02AGENCIAC04", "agencia", 4, '0', Right, false, ""),
      FieldRule("NC02CONTAC10", "conta", 10, '0', Right, false, ""),
      FieldRule("NC02NUMFUNCC15", "matricula", 15, '0', Right, false, ""),
      FieldRule("NC02VALORCALCP15 (Salário)", "salario", 15, '0', Right, false, ""),
      FieldRule("NC02VALORCALCP15 (13º)", "", 15, '0', Right, true, "0"),
      FieldRule("NC02OCORRP02", "", 2, '0', Right, true, "0"),
      FieldRule("NC02DESCROCORRC82", "", 82, ' ', Left, true, " "),
      FieldRule("NC02DATAAGENC08", "", 8, ' ', Left, true, " "),
      FieldRule("NC02DATAPGTC08", "", 8, '0', Right, true, "20220220"),
      FieldRule("NC02TIPOEMPREGC01", "", 1, ' ', Left, true, "J"),
      FieldRule("NC02EMPREGADORC14", "", 14, ' ', Left, true, "88131164000107") ]
  }

  /** The default layout's widths add up to 234, so every line it writes
      (whose length is the sum of the widths) is 234 characters long. */
  lemma DefaultLayoutWidth()
    ensures SumWidths(DefaultRules()) == 234
  {
    MainV5.FourteenSlotWidth(DefaultRules());
  }

  // ---------------------------------------------------------------------
  // The validation record of one line: a dictionary with insertion order.
  // ---------------------------------------------------------------------

  /** A cell of the validation record: text, or the salary as a decimal
      number (held here as whole cents). */
  datatype CsvValue = Text(text: string) | Decimal(cents: int)

  datatype Entry = Entry(key: string, value: CsvValue)

  /** The keys of a record, in insertion order. */
  function Keys(rec: seq<Entry>): seq<string> {
    if rec == [] then [] else [rec[0].key] + Keys(rec[1..])
  }

  predicate Distinct(s: seq<string>) {
    forall i, j :: 0 <= i < j < |s| ==> s[i] != s[j]
  }

  /** `rec.get(key)`. */
  function Get(rec: seq<Entry>, key: string): Option<CsvValue> {
    if rec == [] then None
    else if rec[0].key == key then Some(rec[0].value)
    else Get(rec[1..], key)
  }

  /** `rec[key] = value`. */
  function Put(rec: seq<Entry>, key: string, value: CsvValue): seq<Entry> {
    if rec == [] then [Entry(key, value)]
    else if rec[0].key == key then [Entry(key, value)] + rec[1..]
    else [rec[0]] + Put(rec[1..], key, value)
  }

  /** A key is found exactly when it is one of the record's keys. */
  lemma {:induction false} GetFindsKeys(rec: seq<Entry>, key: string)
    ensures Get(rec, key).None? <==> key !in Keys(rec)
    decreases |rec|
  {
    if rec != [] && rec[0].key != key {
      GetFindsKeys(rec[1..], key);
    }
  }

  /** Dictionary assignment: the key reads back the new value, every other
      key reads as before, a new key goes to the end and an existing key
      keeps its place, and keys stay distinct. */
  lemma {:induction false} PutSemantics(rec: seq<Entry>, key: string, value: CsvValue)
    ensures Get(Put(rec, key, value), key) == Some(value)
    ensures forall k :: k != key ==> Get(Put(rec, key, value), k) == Get(rec, k)
    ensures Keys(Put(rec, key, value)) == if key in Keys(rec) then Keys(rec) else Keys(rec) + [key]
    ensures Distinct(Keys(rec)) ==> Distinct(Keys(Put(rec, key, value)))
    decreases |rec|
  {
    var r := Put(rec, key, value);
    if rec == [] {
    } else if rec[0].key == key {
      assert r[1..] == rec[1..];
    } else {
      PutSemantics(rec[1..], key, value);
      assert r[1..] == Put(rec[1..], key, value);
      assert Keys(r) == [rec[0].key] + Keys(Put(rec[1..], key, value));
      if Distinct(Keys(rec)) {
        var ks := Keys(r);
        assert Keys(rec)[1..] == Keys(rec[1..]);
        assert Distinct(Keys(rec[1..]));
        forall j | 0 < j < |ks| ensures ks[0] != ks[j] {
          assert ks[j] in Keys(Put(rec[1..], key, value));
        }
      }
    }
  }

  /** The key a rule writes: its field name when fixed, "salario_decimal"
      for the salary, its source column otherwise. */
  function CsvKey(rule: FieldRule): string {
    if rule.fixed then rule.name
    else if rule.source == "salario" then "salario_decimal"
    else rule.source
  }

  /** The value a rule writes: the raw value before cutting and padding, or
      the salary as a number (0 when missing). */
  function CsvCell(rule: FieldRule, row: Row, special: bool): CsvValue {
    if !rule.fixed && rule.source == "salario" then Decimal(row.salario.GetOr(0))
    else Text(RawValue(rule, row, special))
  }

  /** The record after the rules, one `Put` per rule in rule order. */
  function RecordWith(rules: seq<FieldRule>, row: Row, special: bool): seq<Entry> {
    if rules == [] then []
    else
      var last := rules[|rules| - 1];
      Put(RecordWith(rules[..|rules| - 1], row, special), CsvKey(last), CsvCell(last, row, special))
  }

  lemma RecordWithStep(rules: seq<FieldRule>, row: Row, special: bool, i: nat)
    requires i < |rules|
    ensures RecordWith(rules[..i + 1], row, special)
            == Put(RecordWith(rules[..i], row, special), CsvKey(rules[i]), CsvCell(rules[i], row, special))
  {
    assert rules[..i + 1][..i] == rules[..i];
  }

  /** The record written for `row`. */
  function Record(rules: seq<FieldRule>, row: Row): seq<Entry> {
    RecordWith(rules, row, UsesOverride(row))
  }

  /** The keys of the rules in first-written order, without repeats. */
  function KeyOrder(rules: seq<FieldRule>): seq<string> {
    if rules == [] then []
    else
      var ks := KeyOrder(rules[..|rules| - 1]);
      var k := CsvKey(rules[|rules| - 1]);
      if k in ks then ks else ks + [k]
  }

  /** Every record has the same columns in the same order, whatever the row:
      the rule keys in first-written order, without repeats. */
  lemma {:induction false} RecordKeys(rules: seq<FieldRule>, row: Row, special: bool)
    ensures Keys(RecordWith(rules, row, special)) == KeyOrder(rules)
    ensures Distinct(KeyOrder(rules))
    ensures forall k :: k in KeyOrder(rules) <==> exists i :: 0 <= i < |rules| && CsvKey(rules[i]) == k
    decreases |rules|
  {
    if rules != [] {
      var init := rules[..|rules| - 1];
      RecordKeys(init, row, special);
      PutSemantics(RecordWith(init, row, special), CsvKey(rules[|rules| - 1]), CsvCell(rules[|rules| - 1], row, special));
      forall k ensures k in KeyOrder(rules) <==> exists i :: 0 <= i < |rules| && CsvKey(rules[i]) == k {
        if k in KeyOrder(rules) && k != CsvKey(rules[|rules| - 1]) {
          var i :| 0 <= i < |init| && CsvKey(init[i]) == k;
          assert CsvKey(rules[i]) == k;
        }
        if exists i :: 0 <= i < |rules| && CsvKey(rules[i]) == k {
          var i :| 0 <= i < |rules| && CsvKey(rules[i]) == k;
          if i < |init| {
            assert CsvKey(init[i]) == k;
          }
        }
      }
    }
  }

  /** When several rules write the same key, the last one wins. */
  lemma {:induction false} LastRuleWins(rules: seq<FieldRule>, row: Row, special: bool, i: nat)
    requires i < |rules|
    requires forall j :: i < j < |rules| ==> CsvKey(rules[j]) != CsvKey(rules[i])
    ensures Get(RecordWith(rules, row, special), CsvKey(rules[i])) == Some(CsvCell(rules[i], row, special))
    decreases |rules|
  {
    var init := rules[..|rules| - 1];
    PutSemantics(RecordWith(init, row, special), CsvKey(rules[|rules| - 1]), CsvCell(rules[|rules| - 1], row, special));
    if i < |rules| - 1 {
      forall j | i < j < |init| ensures CsvKey(init[j]) != CsvKey(init[i]) {
        assert init[j] == rules[j];
      }
      LastRuleWins(init, row, special, i);
      assert init[i] == rules[i];
    }
  }

  /** The validation record holds, under a rule's key, the value the rule's
      slot was cut and padded from: the slot is that value formatted. */
  lemma RecordHoldsSlotValue(rules: seq<FieldRule>, row: Row, k: nat)
    requires k < |rules|
    requires rules[k].fixed || rules[k].source != "salario"
    requires forall j :: k < j < |rules| ==> CsvKey(rules[j]) != CsvKey(rules[k])
    ensures exists v :: Get(Record(rules, row), CsvKey(rules[k])) == Some(Text(v))
                        && Slot(rules, row, k) == FormatField(v, rules[k].width, rules[k].pad, rules[k].just)
  {
    var special := UsesOverride(row);
    LastRuleWins(rules, row, special, k);
    var v := RawValue(rules[k], row, special);
    assert Get(Record(rules, row), CsvKey(rules[k])) == Some(Text(v));
  }

  /** The salary column of the record and the salary slot of the line agree:
      a slot right-justified with '0' and wide enough reads back as the
      record's amount in cents. */
  lemma SalaryColumnMatchesSlot(rules: seq<FieldRule>, row: Row, k: nat)
    requires k < |rules| && !rules[k].fixed && rules[k].source == "salario"
    requires rules[k].pad == '0' && rules[k].just == Right && rules[k].width >= 1
    requires row.salario.Some? ==> row.salario.value >= 0 && |NatToString(row.salario.value)| <= rules[k].width
    requires forall j :: k < j < |rules| ==> CsvKey(rules[j]) != "salario_decimal"
    ensures Get(Record(rules, row), "salario_decimal") == Some(Decimal(row.salario.GetOr(0)))
    ensures AllDigits(Slot(rules, row, k))
    ensures DigitsValue(Slot(rules, row, k)) == row.salario.GetOr(0)
  {
    LastRuleWins(rules, row, UsesOverride(row), k);
    SalarySlotReadsBack(rules[k], row, UsesOverride(row));
  }

  // ---------------------------------------------------------------------
  // The validation table.
  // ---------------------------------------------------------------------

  /** The columns the validation table puts first, in this order, when
      present. */
  const Priority: seq<string> := ["cpf", "nome", "matricula", "salario_decimal", "banco", "agencia", "conta"]

  function IndexOf(s: seq<string>, c: string): (r: nat)
    requires c in s
    ensures r < |s| && s[r] == c
    ensures forall j :: 0 <= j < r ==> s[j] != c
  {
    if s[0] == c then 0 else 1 + IndexOf(s[1..], c)
  }

  /** The elements of `s` whose membership in `keep` is `inside`, in their
      order in `s`. */
  function Select(s: seq<string>, keep: set<string>, inside: bool): (r: seq<string>)
    ensures forall c :: c in r <==> c in s && ((c in keep) == inside)
    ensures Distinct(s) ==> Distinct(r)
  {
    if s == [] then []
    else
      var rest := Select(s[1..], keep, inside);
      if (s[0] in keep) == inside then [s[0]] + rest else rest
  }

  /** The kept columns stay in their original order. */
  lemma {:induction false} SelectKeepsOrder(s: seq<string>, keep: set<string>, inside: bool)
    requires Distinct(s)
    ensures forall i, j :: 0 <= i < j < |Select(s, keep, inside)| ==>
              IndexOf(s, Select(s, keep, inside)[i]) < IndexOf(s, Select(s, keep, inside)[j])
    decreases |s|
  {
    if s != [] {
      var rest := Select(s[1..], keep, inside);
      SelectKeepsOrder(s[1..], keep, inside);
      forall c | c in rest ensures c in s && c != s[0] && IndexOf(s, c) == 1 + IndexOf(s[1..], c) {
        assert c in s[1..];
        var k := IndexOf(s[1..], c);
        assert s[k + 1] == c;
      }
      forall i | 0 <= i < |rest| ensures rest[i] in s && IndexOf(s, rest[i]) == 1 + IndexOf(s[1..], rest[i]) {
        assert rest[i] in rest;
      }
      if (s[0] in keep) == inside {
        var r := [s[0]] + rest;
        forall i, j | 0 <= i < j < |r| ensures r[i] in s && r[j] in s && IndexOf(s, r[i]) < IndexOf(s, r[j]) {
          assert r[j] == rest[j - 1];
          if i > 0 {
            assert r[i] == rest[i - 1];
            assert IndexOf(s[1..], rest[i - 1]) < IndexOf(s[1..], rest[j - 1]);
          } else {
            assert IndexOf(s, r[i]) == 0;
          }
        }
      } else {
        forall i, j | 0 <= i < j < |rest| ensures IndexOf(s, rest[i]) < IndexOf(s, rest[j]) {
          assert IndexOf(s[1..], rest[i]) < IndexOf(s[1..], rest[j]);
        }
      }
    }
  }

  /** The validation table's column order: the priority columns that are
      present, in priority order, then every other column in its original
      order. */
  function ReorderColumns(cols: seq<string>): seq<string> {
    Select(Priority, set c | c in cols, true) + Select(cols, set c | c in Priority, false)
  }

  lemma {:induction false} DistinctCard(s: seq<string>)
    requires Distinct(s)
    ensures |set c | c in s| == |s|
    decreases |s|
  {
    if s != [] {
      DistinctCard(s[1..]);
      assert (set c | c in s) == (set c | c in s[1..]) + {s[0]};
      assert s[0] !in (set c | c in s[1..]);
    }
  }

  /** Two distinct lists with no element in common join into a distinct
      list. */
  lemma DisjointJoinDistinct(a: seq<string>, b: seq<string>)
    requires Distinct(a) && Distinct(b)
    requires forall c :: c in a ==> c !in b
    ensures Distinct(a + b)
  {
    var r := a + b;
    forall i, j | 0 <= i < j < |r| ensures r[i] != r[j] {
      if i < |a| && j >= |a| {
        assert r[i] in a && r[j] == b[j - |a|];
      } else if i < |a| {
        assert r[i] == a[i] && r[j] == a[j];
      } else {
        assert r[i] == b[i - |a|] && r[j] == b[j - |a|];
      }
    }
  }

  /** Reordering a list of distinct columns is a permutation of it: the same
      columns, each once. */
  lemma ReorderIsPermutation(cols: seq<string>)
    requires Distinct(cols)
    ensures Distinct(ReorderColumns(cols))
    ensures |ReorderColumns(cols)| == |cols|
    ensures forall c :: c in ReorderColumns(cols) <==> c in cols
  {
    var front := Select(Priority, set c | c in cols, true);
    var back := Select(cols, set c | c in Priority, false);
    assert Distinct(Priority);
    DisjointJoinDistinct(front, back);
    var r := front + back;
    assert (set c | c in r) == (set c | c in cols);
    DistinctCard(r);
    DistinctCard(cols);
  }

  /** In the reordered columns the priority columns present come first, in
      priority order. */
  lemma ReorderPriorityFirst(cols: seq<string>)
    ensures var r := ReorderColumns(cols);
            forall i, j :: 0 <= i < j < |r| && r[j] in Priority ==>
              r[i] in Priority && IndexOf(Priority, r[i]) < IndexOf(Priority, r[j])
  {
    var front := Select(Priority, set c | c in cols, true);
    var back := Select(cols, set c | c in Priority, false);
    var r := front + back;
    assert Distinct(Priority);
    SelectKeepsOrder(Priority, set c | c in cols, true);
    forall k | |front| <= k < |r| ensures r[k] !in Priority {
      assert r[k] == back[k - |front|] && back[k - |front|] in back;
    }
    forall i, j | 0 <= i < j < |r| && r[j] in Priority
      ensures r[i] in Priority && IndexOf(Priority, r[i]) < IndexOf(Priority, r[j])
    {
      assert j < |front|;
      assert r[i] == front[i] && r[j] == front[j] && front[i] in front;
    }
  }

  /** In the reordered columns the columns outside the priority list follow,
      in their original order. */
  lemma ReorderKeepsOtherOrder(cols: seq<string>)
    requires Distinct(cols)
    ensures var r := ReorderColumns(cols);
            forall i, j :: 0 <= i < j < |r| && r[i] !in Priority ==>
              r[j] !in Priority && IndexOf(cols, r[i]) < IndexOf(cols, r[j])
  {
    var keep := set c | c in Priority;
    var front := Select(Priority, set c | c in cols, true);
    assert ReorderColumns(cols) == front + Select(cols, keep, false);
    SelectedThenRestOrder(front, cols, keep);
  }

  lemma SelectedThenRestOrder(front: seq<string>, cols: seq<string>, keep: set<string>)
    requires Distinct(cols)
    requires forall c :: c in front ==> c in keep
    ensures forall i, j :: 0 <= i < j < |front + Select(cols, keep, false)|
                           && (front + Select(cols, keep, false))[i] !in keep ==>
              (front + Select(cols, keep, false))[j] !in keep
              && IndexOf(cols, (front + Select(cols, keep, false))[i])
                 < IndexOf(cols, (front + Select(cols, keep, false))[j])
  {
    var back := Select(cols, keep, false);
    var r := front + back;
    SelectKeepsOrder(cols, keep, false);
    forall k | 0 <= k < |front| ensures r[k] in keep {
      assert r[k] == front[k] && front[k] in front;
    }
    forall i, j | 0 <= i < j < |r| && r[i] !in keep
      ensures r[j] !in keep && IndexOf(cols, r[i]) < IndexOf(cols, r[j])
    {
      assert i >= |front|;
      assert r[i] == back[i - |front|] && r[j] == back[j - |front|];
      assert back[j - |front|] in back;
    }
  }

  /** `pd.DataFrame(records)`: the columns of all records, in first-seen
      order. */
  function Columns(records: seq<seq<Entry>>): seq<string> {
    if records == [] then []
    else
      var before := Columns(records[..|records| - 1]);
      before + Select(Keys(records[|records| - 1]), set c | c in before, false)
  }

  lemma {:induction false} ColumnsOfUniformRecords(records: seq<seq<Entry>>, ks: seq<string>)
    requires records != []
    requires Distinct(ks)
    requires forall i :: 0 <= i < |records| ==> Keys(records[i]) == ks
    ensures Columns(records) == ks
    decreases |records|
  {
    var init := records[..|records| - 1];
    if init == [] {
      assert Columns(init) == [];
      assert (set c: string | c in Columns(init)) == {};
      assert Select(ks, {}, false) == ks by { SelectNothing(ks); }
    } else {
      ColumnsOfUniformRecords(init, ks);
      assert Select(ks, set c | c in ks, false) == [] by { SelectAll(ks); }
    }
  }

  lemma {:induction false} SelectNothing(s: seq<string>)
    ensures Select(s, {}, false) == s
    decreases |s|
  {
    if s != [] {
      SelectNothing(s[1..]);
    }
  }

  lemma SelectAll(s: seq<string>)
    ensures Select(s, set c | c in s, false) == []
  {
    SelectNone(s, set c | c in s);
  }

  lemma {:induction false} SelectNone(s: seq<string>, keep: set<string>)
    requires forall c :: c in s ==> c in keep
    ensures Select(s, keep, false) == []
    decreases |s|
  {
    if s != [] {
      assert s[0] in keep;
      SelectNone(s[1..], keep);
    }
  }

  /** The validation table: header and one row of cells per record (absent
      keys are empty cells). */
  datatype Csv = Csv(header: seq<string>, cells: seq<seq<Option<CsvValue>>>)

  /** The table written after the loop: none when there are no records,
      otherwise the records' columns reordered, and each record's values
      under them. */
  function ValidationCsv(records: seq<seq<Entry>>): (r: Option<Csv>)
    ensures r.None? <==> records == []
    ensures r.Some? ==> |r.value.cells| == |records|
                        && forall i, j :: 0 <= i < |records| && 0 <= j < |r.value.header| ==>
                             |r.value.cells[i]| == |r.value.header|
                             && r.value.cells[i][j] == Get(records[i], r.value.header[j])
  {
    if records == [] then None
    else
      var header := ReorderColumns(Columns(records));
      Some(Csv(header, seq(|records|, i requires 0 <= i < |records| =>
                             seq(|header|, j requires 0 <= j < |header| => Get(records[i], header[j])))))
  }

  /** The records of an export, one per row, in row order. */
  function Records(rules: seq<FieldRule>, rows: seq<Row>): (r: seq<seq<Entry>>)
    ensures |r| == |rows|
  {
    seq(|rows|, i requires 0 <= i < |rows| => Record(rules, rows[i]))
  }

  lemma RecordsStep(rules: seq<FieldRule>, rows: seq<Row>, i: nat)
    requires i < |rows|
    ensures Records(rules, rows[..i + 1]) == Records(rules, rows[..i]) + [Record(rules, rows[i])]
  {
    var a := Records(rules, rows[..i + 1]);
    var b := Records(rules, rows[..i]) + [Record(rules, rows[i])];
    forall k | 0 <= k <= i ensures a[k] == b[k] {
      assert rows[..i + 1][k] == rows[k];
      if k < i {
        assert rows[..i][k] == rows[k];
      }
    }
  }

  /** The records of a non-empty export all have the rule keys as their
      columns, so the table's columns are those keys. */
  lemma RecordsColumns(rules: seq<FieldRule>, rows: seq<Row>)
    requires rows != []
    ensures Columns(Records(rules, rows)) == KeyOrder(rules)
    ensures Distinct(KeyOrder(rules))
  {
    var records := Records(rules, rows);
    var ks := KeyOrder(rules);
    forall i | 0 <= i < |records| ensures Keys(records[i]) == ks {
      RecordKeys(rules, rows[i], UsesOverride(rows[i]));
    }
    RecordKeys(rules, rows[0], UsesOverride(rows[0]));
    ColumnsOfUniformRecords(records, ks);
  }

  /** The validation table of a non-empty export has, as its columns, each
      rule key once, priority columns first, and no empty cell. */
  lemma ValidationHeader(rules: seq<FieldRule>, rows: seq<Row>)
    requires rows != []
    ensures var csv := ValidationCsv(Records(rules, rows));
            && csv.Some?
            && |csv.value.header| == |KeyOrder(rules)|
            && (forall c :: c in csv.value.header <==> exists i :: 0 <= i < |rules| && CsvKey(rules[i]) == c)
            && (forall i, j :: 0 <= i < j < |csv.value.header| && csv.value.header[j] in Priority
                  ==> csv.value.header[i] in Priority)
            && (forall i, j :: 0 <= i < |rows| && 0 <= j < |csv.value.header| ==> csv.value.cells[i][j].Some?)
  {
    var records := Records(rules, rows);
    var ks := KeyOrder(rules);
    RecordsColumns(rules, rows);
    RecordKeys(rules, rows[0], UsesOverride(rows[0]));
    ReorderIsPermutation(ks);
    ReorderPriorityFirst(ks);
    var header := ReorderColumns(ks);
    forall i, j | 0 <= i < |rows| && 0 <= j < |header| ensures Get(records[i], header[j]).Some? {
      RecordKeys(rules, rows[i], UsesOverride(rows[i]));
      GetFindsKeys(records[i], header[j]);
    }
  }

  // ---------------------------------------------------------------------
  // The processing loop.
  // ---------------------------------------------------------------------

  /** The body of the loop over the rules for one rule: the slot text, and
      the record with this rule's key written. */
  method RenderField(rule: FieldRule, row: Row, special: bool, record: seq<Entry>)
    returns (formatted: string, updated: seq<Entry>)
    ensures formatted == FieldText(rule, row, special)
    ensures updated == Put(record, CsvKey(rule), CsvCell(rule, row, special))
  {
    var value: string;
    updated := record;
    if rule.fixed {
      value := rule.literal;
      updated := Put(updated, rule.name, Text(value));
    } else {
      if special && rule.source in BankColumns {
        if rule.source == "banco" {
          value := "041";
        } else if rule.source == "agencia" {
          value := "0000";
        } else {
          value := "0";
        }
      } else {
        value := Lookup(row, rule.source);
      }
      if rule.source == "salario" {
        updated := Put(updated, "salario_decimal", Decimal(row.salario.GetOr(0)));
        value := SalaryText(row.salario);
      } else {
        updated := Put(updated, rule.source, Text(value));
      }
    }
    value := Take(value, rule.width);
    if rule.just == Right {
      formatted := Rjust(value, rule.width, rule.pad);
    } else {
      formatted := Ljust(value, rule.width, rule.pad);
    }
  }

  /** The loop over the rules for one row: the line, and the row's
      validation record. */
  method RenderRow(rules: seq<FieldRule>, row: Row) returns (line: string, record: seq<Entry>)
    ensures line == Line(rules, row)
    ensures |line| == SumWidths(rules)
    ensures record == Record(rules, row)
    ensures Keys(record) == KeyOrder(rules)
  {
    var special := MainV5.IsSpecial(row);
    var parts: seq<string> := [];
    record := [];
    for i := 0 to |rules|
      invariant |parts| == i
      invariant parts == Fields(rules[..i], row, special)
      invariant record == RecordWith(rules[..i], row, special)
    {
      var formatted, updated := RenderField(rules[i], row, special, record);
      RecordWithStep(rules, row, special, i);
      FieldsStep(rules, row, special, i);
      record := updated;
      parts := parts + [formatted];
    }
    assert rules[..|rules|] == rules;
    line := Concat(parts);
    RecordKeys(rules, row, special);
  }

  /** The loop over the rows: one line and one record per row, in row
      order. */
  method RenderRows(rules: seq<FieldRule>, rows: seq<Row>) returns (lines: seq<string>, records: seq<seq<Entry>>)
    ensures lines == Lines(rules, rows)
    ensures records == Records(rules, rows)
  {
    lines := [];
    records := [];
    for i := 0 to |rows|
      invariant lines == Lines(rules, rows[..i])
      invariant records == Records(rules, rows[..i])
    {
      var line, record := RenderRow(rules, rows[i]);
      LinesStep(rules, rows, i);
      RecordsStep(rules, rows, i);
      lines := lines + [line];
      records := records + [record];
    }
    assert rows[..|rows|] == rows;
  }

  /** `processar_arquivos_dinamico`: the lines of the output file (one per
      row of the joined, sorted table) and the validation table of their
      records. */
  method Process(emps: seq<Employee>, accts: seq<Account>, rules: seq<FieldRule>)
    returns (lines: seq<string>, csv: Option<Csv>)
    ensures lines == Lines(rules, SortedRows(emps, accts))
    ensures csv == ValidationCsv(Records(rules, SortedRows(emps, accts)))
  {
    var rows := SortByName(MergedRows(emps, accts));
    var records;
    lines, records := RenderRows(rules, rows);
    csv := ValidationCsv(records);
  }
}
