/** The hard-coded record of the script variants (main.py, main2.py,
    main3.py, main4.py, main4.3.py): fourteen formatted values written one
    after the other with no separator, as one f-string. The variants differ in
    how they compute the values; the order of the slots, their nominal widths
    and the way they are joined are shared and are modelled here once. */
module Legacy {
  import opened Text

  /** The fourteen values of one record, in the order they are written:
      name, cpf, bank, branch, account, registration, salary, the second
      amount (13th salary, or the salary again), occurrence code, occurrence
      description, scheduling date, payment date, employer type, employer
      CNPJ. */
  datatype Record = Record(
    nome: string,
    cpf: string,
    banco: string,
    agencia: string,
    conta: string,
    matricula: string,
    salario: string,
    segundo: string,
    ocorrencia: string,
    descricao: string,
    agendamento: string,
    pagamento: string,
    tipo: string,
    cnpj: string)

  function Slots(r: Record): (s: seq<string>)
    ensures |s| == 14
  {
    [r.nome, r.cpf, r.banco, r.agencia, r.conta, r.matricula, r.salario,
     r.segundo, r.ocorrencia, r.descricao, r.agendamento, r.pagamento, r.tipo, r.cnpj]
  }

  /** The f-string: the fourteen values concatenated in slot order. */
  function Assemble(r: Record): (line: string)
    ensures |line| == TotalLength(Slots(r))
  {
    Concat(Slots(r))
  }

  /** The nominal width of each slot; the payment date is as wide as the
      date text the variant writes (8 for "YYYYMMDD"). */
  function SlotWidths(dateWidth: nat): (w: seq<nat>)
    ensures |w| == 14
  {
    [46, 11, 3, 4, 10, 15, 15, 15, 2, 82, 8, dateWidth, 1, 14]
  }

  /** Where slot `k` starts: the widths of the slots before it. */
  function Start(widths: seq<nat>, k: nat): nat
    requires k <= |widths|
  {
    if k == 0 then 0 else Start(widths, k - 1) + widths[k - 1]
  }

  /** Every value of the record has exactly its slot's width. */
  predicate Fits(r: Record, widths: seq<nat>) {
    |widths| == 14 && forall k :: 0 <= k < 14 ==> |Slots(r)[k]| == widths[k]
  }

  lemma {:induction false} PrefixLength(r: Record, widths: seq<nat>, k: nat)
    requires Fits(r, widths) && k <= 14
    ensures TotalLength(Slots(r)[..k]) == Start(widths, k)
    decreases k
  {
    if k > 0 {
      var s := Slots(r);
      PrefixLength(r, widths, k - 1);
      assert s[..k] == s[..k - 1] + [s[k - 1]];
      TotalLengthAppend(s[..k - 1], [s[k - 1]]);
      assert TotalLength([s[k - 1]]) == |s[k - 1]|;
    }
  }

  /** When every value fits its slot, slot `k` of the line is exactly value
      `k`, and the line is as long as the widths add up to. */
  lemma Placement(r: Record, widths: seq<nat>, k: nat)
    requires Fits(r, widths) && k < 14
    ensures |Assemble(r)| == Start(widths, 14)
    ensures Start(widths, k + 1) <= |Assemble(r)|
    ensures Assemble(r)[Start(widths, k)..Start(widths, k + 1)] == Slots(r)[k]
  {
    var s := Slots(r);
    PrefixLength(r, widths, k);
    PrefixLength(r, widths, 14);
    assert s[..14] == s;
    PartOfConcat(Assemble(r), s, k, Start(widths, k), Start(widths, k + 1), s[k]);
  }

  /** The offsets of the standard layout: name 0-46, cpf 46-57, bank 57-60,
      branch 60-64, account 64-74, registration 74-89, salary 89-104, second
      amount 104-119, occurrence 119-121, description 121-203, scheduling
      203-211, payment date from 211, then the employer type and CNPJ; the
      whole line is 226 characters plus the date. */
  lemma StandardOffsets(dateWidth: nat)
    ensures var w := SlotWidths(dateWidth);
            && Start(w, 1) == 46 && Start(w, 2) == 57 && Start(w, 3) == 60
            && Start(w, 4) == 64 && Start(w, 5) == 74 && Start(w, 6) == 89
            && Start(w, 7) == 104 && Start(w, 8) == 119 && Start(w, 9) == 121
            && Start(w, 10) == 203 && Start(w, 11) == 211
            && Start(w, 12) == 211 + dateWidth && Start(w, 13) == 212 + dateWidth
            && Start(w, 14) == 226 + dateWidth
  {
    var w := SlotWidths(dateWidth);
    assert Start(w, 0) == 0;
    assert Start(w, 1) == 46;
    assert Start(w, 2) == 57;
    assert Start(w, 3) == 60;
    assert Start(w, 4) == 64;
    assert Start(w, 5) == 74;
    assert Start(w, 6) == 89;
    assert Start(w, 7) == 104;
    assert Start(w, 8) == 119;
    assert Start(w, 9) == 121;
    assert Start(w, 10) == 203;
    assert Start(w, 11) == 211;
    assert Start(w, 12) == 211 + dateWidth;
    assert Start(w, 13) == 212 + dateWidth;
  }

  /** The widths of a layout whose name slot is `nameWidth` wide instead of
      46: what a name padded but never cut occupies. */
  function WideNameWidths(nameWidth: nat, dateWidth: nat): (w: seq<nat>)
    ensures |w| == 14
  {
    [nameWidth, 11, 3, 4, 10, 15, 15, 15, 2, 82, 8, dateWidth, 1, 14]
  }

  /** With a name slot `nameWidth` wide, every later slot starts
      `nameWidth - 46` further along than in the standard layout (compare
      `StandardOffsets`), and so does the end of the line. */
  lemma WideNameOffsets(nameWidth: nat, dateWidth: nat)
    ensures var w := WideNameWidths(nameWidth, dateWidth);
            && Start(w, 1) == nameWidth && Start(w, 2) == nameWidth + 11
            && Start(w, 3) == nameWidth + 14 && Start(w, 4) == nameWidth + 18
            && Start(w, 5) == nameWidth + 28 && Start(w, 6) == nameWidth + 43
            && Start(w, 7) == nameWidth + 58 && Start(w, 8) == nameWidth + 73
            && Start(w, 9) == nameWidth + 75 && Start(w, 10) == nameWidth + 157
            && Start(w, 11) == nameWidth + 165
            && Start(w, 12) == nameWidth + 165 + dateWidth
            && Start(w, 13) == nameWidth + 166 + dateWidth
            && Start(w, 14) == nameWidth + 180 + dateWidth
  {
    var w := WideNameWidths(nameWidth, dateWidth);
    assert Start(w, 0) == 0;
    assert Start(w, 1) == nameWidth;
    assert Start(w, 2) == nameWidth + 11;
    assert Start(w, 3) == nameWidth + 14;
    assert Start(w, 4) == nameWidth + 18;
    assert Start(w, 5) == nameWidth + 28;
    assert Start(w, 6) == nameWidth + 43;
    assert Start(w, 7) == nameWidth + 58;
    assert Start(w, 8) == nameWidth + 73;
    assert Start(w, 9) == nameWidth + 75;
    assert Start(w, 10) == nameWidth + 157;
    assert Start(w, 11) == nameWidth + 165;
    assert Start(w, 12) == nameWidth + 165 + dateWidth;
    assert Start(w, 13) == nameWidth + 166 + dateWidth;
  }

  /** A record whose values fit the standard layout makes a line of
      226 + (date width) characters: 234 with an eight-character date. */
  lemma StandardLength(r: Record, dateWidth: nat)
    requires Fits(r, SlotWidths(dateWidth))
    ensures |Assemble(r)| == 226 + dateWidth
  {
    StandardOffsets(dateWidth);
    Placement(r, SlotWidths(dateWidth), 0);
  }

  /** `int(x)` of the salary as a float, from the amount in cents: the whole
      part, truncated toward zero like Python's `int()`. */
  function Units(cents: int): (u: int)
    ensures 0 <= cents ==> 0 <= u * 100 <= cents < (u + 1) * 100
    ensures cents < 0 ==> (u - 1) * 100 < cents <= u * 100 <= 0
  {
    if cents >= 0 then cents / 100 else -((-cents) / 100)
  }

  /** The text of a value padded on the left with '0' and never cut. */
  function ZeroPad(value: string, width: nat): (r: string)
    ensures |r| == Max(|value|, width)
  {
    Rjust(value, width, '0')
  }

  /** The name slot of the later scripts: cut to 46, then padded with spaces
      on the right, so always 46 characters, starting with as much of the
      name as fits. */
  function NameSlot(nome: string): (r: string)
    ensures |r| == 46
    ensures |nome| <= 46 ==> r[..|nome|] == nome && forall i :: |nome| <= i < 46 ==> r[i] == ' '
    ensures |nome| > 46 ==> r == nome[..46]
  {
    LjustShape(Take(nome, 46), 46, ' ');
    Ljust(Take(nome, 46), 46, ' ')
  }

  /** The row loop of the scripts: `line` formats one row, and the lines are
      written in the order of the rows, one per row. */
  method WriteLines<R>(rows: seq<R>, line: R -> string) returns (lines: seq<string>)
    ensures |lines| == |rows|
    ensures forall i :: 0 <= i < |rows| ==> lines[i] == line(rows[i])
  {
    lines := [];
    for i := 0 to |rows|
      invariant |lines| == i
      invariant forall k :: 0 <= k < i ==> lines[k] == line(rows[k])
    {
      lines := lines + [line(rows[i])];
    }
  }
}
