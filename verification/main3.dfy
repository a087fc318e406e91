/** main3.py: main2.py with one more step. The joined rows are sorted by
    name, with the rows whose employee was not found last, before the lines
    are written. Each line is built exactly as in main2.py. */
module MainV3 {
  import opened Text
  import opened Table
  import MainV2
  import Legacy

  /** The script: the same line for each row as main2.py, written in name
      order. */
  method Process(emps: seq<Employee>, accts: seq<Account>) returns (lines: seq<string>)
    ensures |lines| == |SortedRows(emps, accts)| == |accts|
    ensures forall i :: 0 <= i < |lines| ==> lines[i] == MainV2.Line(SortedRows(emps, accts)[i])
  {
    SortedRowsKeepEveryAccount(emps, accts);
    var rows := SortByName(MergedRows(emps, accts));
    lines := Legacy.WriteLines(rows, MainV2.Line);
  }

  /** Once a line for a missing employee is written, every later line is
      one too: a blank name and the override account. The found employees'
      lines come first, in name order. */
  lemma UnmatchedLinesLast(emps: seq<Employee>, accts: seq<Account>)
    ensures forall i, j :: 0 <= i < j < |SortedRows(emps, accts)| && SortedRows(emps, accts)[i].nome.None?
              ==> MainV2.RecordOf(SortedRows(emps, accts)[j]).nome == Repeat(' ', 46)
                  && MainV2.RecordOf(SortedRows(emps, accts)[j]).conta == "0000000000"
    ensures forall i, j :: 0 <= i < j < |SortedRows(emps, accts)|
              && SortedRows(emps, accts)[i].nome.Some? && SortedRows(emps, accts)[j].nome.Some?
              ==> StrLe(SortedRows(emps, accts)[i].nome.value, SortedRows(emps, accts)[j].nome.value)
  {
    var s := SortedRows(emps, accts);
    forall j | 0 <= j < |s| && s[j].nome.None?
      ensures MainV2.RecordOf(s[j]).nome == Repeat(' ', 46)
      ensures MainV2.RecordOf(s[j]).conta == "0000000000"
    {
      MainV2.NotFoundDefaults(s[j]);
    }
  }
}
