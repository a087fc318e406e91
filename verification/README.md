# Payroll-to-bank fixed-width exporter, modelled in Dafny

The exporter reads two spreadsheets and writes one fixed-width line per
employee payment for the bank:

- a roster of employees: cpf, name, registration number (`matricula`) and salary;
- an account file: cpf, bank, branch and account.

The repository holds seven successive versions of the exporter. This project
models the logic they share and the places where they differ. The GUI, file
and pandas plumbing around that logic is not modelled.

- **Field formatting.** A value is cut to the field width, then padded with
  one pad character, in front (`rjust`) or behind (`ljust`). Fields are
  concatenated with no separator. The two configurable versions
  (`OLD_VERS/main5.py`, `OLD_VERS/main6.py`) drive this from an ordered list
  of field rules (module `Layout`). The five scripts hard-code the same
  fourteen slots (module `Legacy`). Most of the scripts pad numbers without
  cutting them.
- **The 38/39 account rule** (module `Eligibility`). When the employee was not
  found, or the stripped account begins with 38 or 39, the bank, branch and
  account are replaced by 041, 0000 and zeros. `main4.3.py` takes the fill
  value "0" as the "not found" signal instead.
- **The row pipeline** (module `Table`, sorts in `Sorting`):
  - the roster is sorted by registration, descending;
  - duplicate cpfs are dropped, keeping the greatest registration, or kept
    when the switch is off;
  - the roster and the account file are left-joined on cpf (accounts-driving,
    or employees-driving in `main4.3.py`);
  - missing bank columns are filled with "0";
  - the rows are sorted by name, with missing names last.
- **The validation CSV of `OLD_VERS/main6.py`**: one record per row, with the
  columns reordered so the priority columns come first.

One module per version ties these together. Each has a `Process` method whose
result is stated against the pipeline functions:

| version | module |
|---|---|
| `main.py` | `MainV1` |
| `main2.py` | `MainV2` |
| `main3.py` | `MainV3` |
| `OLD_VERS/main4.py` | `MainV4` |
| `main4.3.py` | `MainV43` |
| `OLD_VERS/main5.py` | `MainV5` |
| `OLD_VERS/main6.py` | `MainV6` |

Salaries are held as whole cents (`Option<int>`). `None` is a missing cell;
in the two configurable versions it is also an amount that does not parse,
which they write as "0". "Times 100, then `int()`" is therefore the number of cents.
The unscaled `int()` of `main4.py` and `main4.3.py` is `Legacy.Units`: whole
units, truncated toward zero. Missing cells are written as Python writes
`str(NaN)`, "nan", where a version calls `str()` on a cell that can be
missing.

The default layouts' widths add up to 234 characters:
46 + 11 + 3 + 4 + 10 + 15 + 15 + 15 + 2 + 82 + 8 + 8 + 1 + 14.

The versions differ as follows.

| version | pipeline | account override | line |
|---|---|---|---|
| `main.py` | clean-up, join, merge order | none | unmatched rows become a comment line; name not cut; blank employer CNPJ |
| `main2.py` | clean-up, join, merge order | not found, or 38/39 | salary ×100 |
| `main3.py` | as `main2.py`, then sort by name | as `main2.py` | as `main2.py` |
| `OLD_VERS/main4.py` | no clean-up, join, sort by name | as `main2.py` | unscaled salary written twice; occurrence code is two spaces; date is today's |
| `main4.3.py` | no clean-up, roster-driving join, fill "0", sort by name | stripped account "0", or 38/39; stripped values written | as `main4.py`; date chosen by the user |
| `OLD_VERS/main5.py` | clean-up, join, sort by name | not found, or 38/39, giving 041/0000/"0" | rule-driven |
| `OLD_VERS/main6.py` | as `main5.py` | as `main5.py` | as `main5.py`, plus the validation CSV |

## Model

| member | source | states |
|---|---|---|
| Text.RjustShape | OLD_VERS/main6.py:90-91 | `rjust` never cuts: the result is `max(len, width)` long, ends with the value, and has only pad characters before it |
| Text.LjustShape | OLD_VERS/main6.py:92-93 | `ljust` never cuts: the result starts with the value and has only pad characters after it |
| Text.RjustPadsFront | main2.py:88-93 | a value no wider than the field is preceded by exactly `width - len` pad characters |
| Text.StripShape | main2.py:64 | `strip()` returns the infix of the text left after removing whitespace from both ends; it neither starts nor ends with whitespace |
| Text.StripIgnoresSurroundingSpace | main3.py:69 | whitespace added around a text does not change its `strip()` |
| Text.NatToStringRoundTrip | main2.py:93 | the decimal text of a natural number is all digits and reads back as that number |
| Text.LeadingZerosValue | main2.py:93 | leading '0' padding does not change the value of a digit string |
| Text.ZeroPadReadsBack | main2.py:93 | a number zero-padded to a width it fits in is exactly that wide, all digits, and reads back as the number |
| Text.ConcatSlice | OLD_VERS/main6.py:98 | in `"".join(parts)`, part `k` sits right after the total length of the parts before it |
| Text.PartOfConcat | OLD_VERS/main6.py:98 | the slice of a joined line between the offsets of part `k` is part `k` |
| Text.TotalLengthAppend | OLD_VERS/main6.py:95-98 | the joined length of two lists of parts adds up |
| Text.StrLeTotal | main3.py:38 | string order is total: of two names, one sorts before the other |
| Text.StrLeTransitive | main3.py:38 | string order chains |
| Sorting.Insert | main3.py:38 | inserting into a sorted list keeps it sorted and adds exactly that element |
| Sorting.Sort | main3.py:38 | `sort_values` as specified: the result is ordered by the relation and is a permutation of the input |
| Table.RegistrationOrderIsTotal | main2.py:28 | descending registration order is a total preorder |
| Table.SortByRegistration | main2.py:28 | `sort_values('matricula', ascending=False)`: a permutation, with registrations non-increasing |
| Table.KeepFirstByCpf | main2.py:29 | `drop_duplicates('cpf', keep='first')`: one row per cpf, the same set of cpfs, and each kept row is the first of its cpf |
| Table.DeduplicateKeepsGreatestRegistration | OLD_VERS/main5.py:33-34 | after clean-up there is exactly one roster row per cpf; it comes from the roster and carries that cpf's greatest registration |
| Table.PermutationKeepsCpfs | main2.py:28-29 | reordering the roster keeps its rows and cpfs |
| Table.JoinAccountRows | main2.py:33 | each row an account contributes carries that account's columns, with a roster row of its cpf or, when there is none, no employee |
| Table.JoinAccountsRows | OLD_VERS/main4.py:46 | the accounts-driving left join keeps every account row, every joined row comes from an account row, and its employee side is a roster row of that cpf or missing when the roster has none |
| Table.MatchesOfNone | main2.py:33 | a cpf with no roster row has no matches |
| Table.MatchesOfUnique | main2.py:33 | after clean-up a cpf has at most one match |
| Table.JoinAccountUnique | main2.py:33 | after clean-up an account gives exactly one row, carrying the roster row of its cpf or no employee |
| Table.JoinAccountsRowForRow | main2.py:33 | after clean-up the join has one row per account row, in account order |
| Table.JoinAccountsOneToOne | main2.py:33 | after clean-up, row `i` of the join carries account row `i`, with the roster row of its cpf, or no employee when the cpf is not on the roster |
| Table.JoinEmployeeRows | main4.3.py:47 | each row a roster row contributes carries that employee, with an account of its cpf or, when there is none, no account |
| Table.JoinEmployeesRows | main4.3.py:47 | the employees-driving left join keeps every roster row and adds none |
| Table.NameOrderIsTotal | main3.py:38 | the name order with missing names last is a total preorder |
| Table.SortByName | main3.py:38 | `sort_values('nome', na_position='last')`: a permutation; missing names after all present ones; present names in string order |
| Table.SameRows | main3.py:38 | a permutation has the same length and the same rows |
| Table.MergedRowsFollowAccounts | main2.py:28-33 | clean-up then join: one row per account row, in account order, with that account's columns, no employee when its cpf is not on the roster, and otherwise a roster row of that cpf carrying its greatest registration |
| Table.SortedRowsKeepEveryAccount | OLD_VERS/main6.py:32-37 | clean-up, join, then sort by name: one row per account row, every account row present, and a row with an employee side carries its cpf's greatest registration |
| Table.JoinAccountHasMatch | OLD_VERS/main4.py:46 | an account is combined with every roster row of its cpf |
| Table.JoinAccountsHasEveryMatch | OLD_VERS/main4.py:46 | without clean-up every (account, roster row) pair with one cpf gets its own joined row |
| Table.AllMatchRowsKeepEveryPair | OLD_VERS/main4.py:35-50 | with duplicate removal off: every account row present, every row from an account row, every same-cpf pairing present (two registrations give two rows), and a row without an employee has no cpf on the roster |
| Table.FillBankShape | main4.3.py:51-53 | `fillna('0')` on one row: no bank column missing, present values kept, missing ones "0", employee side untouched |
| Table.FillAllRows | main4.3.py:51-53 | the filled table holds exactly the fills of the joined rows |
| Table.FilledJoinRows | main4.3.py:47-53 | after the roster-driving join and the fill: every roster row carried, every row carries a roster row, no bank column missing, "0" in all three when no account has the cpf |
| Table.EmployeeRowsKeepEveryEmployee | main4.3.py:39-57 | the whole pipeline of `main4.3.py`: nobody on the roster is dropped for lacking an account, every row carries a roster row, bank columns never missing, "0" where no account exists |
| Eligibility.ExcludedAccountChars | main2.py:64-66 | "starts with 39 or 38" on the stripped account means its first two characters are '3' then '8' or '9' |
| Eligibility.DecideByMatch | OLD_VERS/main6.py:50-52 | the override is taken exactly when the employee is not found or the stripped account begins with 38 or 39 |
| Eligibility.DecideBySentinel | main4.3.py:75-81 | the override is taken exactly when the stripped account is "0" or begins with 38 or 39 |
| Eligibility.DecisionIgnoresSurroundingSpace | main3.py:69-71 | whitespace around the account never changes either decision |
| Eligibility.SampleDecisions | main2.py:64-80 | " 38000123" takes the override; "12000123" keeps the original |
| Layout.FormatField | OLD_VERS/main6.py:89-93 | a formatted field is exactly `width` characters |
| Layout.FormatFieldShape | OLD_VERS/main6.py:89-93 | right justification ends with the cut value after pad characters; left starts with it before pad characters; a value longer than the width gives its first `width` characters |
| Layout.FieldsStep | OLD_VERS/main5.py:86 | appending one more rule's formatted field extends the field list by that field |
| Layout.FieldsLength | OLD_VERS/main5.py:86-89 | the joined fields are as long as the widths add up to |
| Layout.LineWith | OLD_VERS/main6.py:95-98 | a line is exactly the sum of the rule widths long |
| Layout.Line | OLD_VERS/main5.py:86-89 | the line written for a row is exactly the sum of the rule widths long |
| Layout.Lines | OLD_VERS/main5.py:44-89 | one line per row |
| Layout.LinesAt | OLD_VERS/main5.py:44-89 | line `i` of the output is the line for row `i` |
| Layout.LinesStep | OLD_VERS/main6.py:45-98 | writing one more row appends its line |
| Layout.FieldsPrefix | OLD_VERS/main6.py:95-98 | the fields of the first `k` rules are the first `k` fields |
| Layout.FieldOffset | OLD_VERS/main6.py:95-98 | field `k` starts after the widths of the rules before it and is `width` long |
| Layout.FieldBoundaries | OLD_VERS/main6.py:95-98 | the slice of the line between the offsets of rule `k` is exactly rule `k`'s formatted field |
| Layout.Slot | OLD_VERS/main6.py:55-95 | slot `k` of a row's line is that rule's formatted field under the row's override decision |
| Layout.FixedSlotIgnoresRow | OLD_VERS/main6.py:57-60 | a fixed rule writes the same characters at the same place for every row and either override decision |
| Layout.OverrideOnlyChangesBankSlots | OLD_VERS/main6.py:57-68 | under the override, the bank/branch/account rules write "041"/"0000"/"0", cut and padded; every other slot is unchanged |
| Layout.AbsentColumnIsPadding | OLD_VERS/main5.py:64 | a rule naming a column the joined row lacks writes only pad characters |
| Layout.SalaryFieldShape | OLD_VERS/main5.py:72-84 | a zero-padded, right-justified salary rule writes the signed cents text ("0" when missing or unparsable) after `width - len` zeros when it fits, so a negative amount shows zeros, '-', digits; an overlong text is cut to its first `width` characters |
| Layout.SalarySlotReadsBack | OLD_VERS/main6.py:71-75 | the salary slot is all digits and reads back as the salary in cents (0 when missing) |
| MainV5.DefaultLayoutWidth | OLD_VERS/main5.py:141-154 | the default rules add up to 234, so every default line is 234 characters |
| MainV5.RenderField | OLD_VERS/main5.py:53-86 | the body of the rule loop computes the formatted field of the rule, exactly `width` long |
| MainV5.IsSpecial | OLD_VERS/main5.py:48-50 | the per-row flag is true exactly when the name is missing or the stripped account begins with 38 or 39 |
| MainV5.RenderRow | OLD_VERS/main5.py:45-89 | the rule loop yields the row's line, as long as the widths add up to |
| MainV5.Process | OLD_VERS/main5.py:33-89 | one line per row of clean-up/join/sort, in order, each the row's line and sum-of-widths long |
| MainV6.DefaultLayoutWidth | OLD_VERS/main6.py:178-191 | the default rules add up to 234 |
| MainV6.GetFindsKeys | OLD_VERS/main6.py:47-81 | a key of the CSV record is found exactly when it has been set |
| MainV6.PutSemantics | OLD_VERS/main6.py:60 | setting a dict entry: the key reads back the value, other keys unchanged, a new key goes last, an existing key keeps its place |
| MainV6.RecordWithStep | OLD_VERS/main6.py:55-81 | one more rule sets one more entry |
| MainV6.RecordKeys | OLD_VERS/main6.py:55-81 | the record's keys are the rules' keys in first-set order, without repeats |
| MainV6.LastRuleWins | OLD_VERS/main6.py:60-81 | a key that no later rule sets holds the value of its rule |
| MainV6.RecordHoldsSlotValue | OLD_VERS/main6.py:60-81 | the key of a fixed or non-salary rule that no later rule overwrites holds a text value (only the salary is written as a number) |
| MainV6.SalaryColumnMatchesSlot | OLD_VERS/main6.py:71-78 | the CSV keeps the decimal salary under `salario_decimal` while the line's salary slot reads back as the same amount in cents |
| MainV6.IndexOf | OLD_VERS/main6.py:117-118 | the first position of a column |
| MainV6.Select | OLD_VERS/main6.py:117-118 | the comprehension keeps exactly the columns inside (or outside) the chosen set, without repeats |
| MainV6.SelectKeepsOrder | OLD_VERS/main6.py:117-118 | the comprehension keeps the original order |
| MainV6.DistinctCard | OLD_VERS/main6.py:116 | a list of distinct columns has as many columns as its set |
| MainV6.DisjointJoinDistinct | OLD_VERS/main6.py:117-118 | two disjoint lists of distinct columns join into a list of distinct columns |
| MainV6.ReorderIsPermutation | OLD_VERS/main6.py:113-120 | the reordered columns are a permutation of the existing ones |
| MainV6.ReorderPriorityFirst | OLD_VERS/main6.py:113-117 | the priority columns that exist come first, in priority order |
| MainV6.ReorderKeepsOtherOrder | OLD_VERS/main6.py:118 | the other columns follow, in their original order |
| MainV6.SelectedThenRestOrder | OLD_VERS/main6.py:118 | chosen columns followed by the rest: every chosen column precedes every other, and the rest keep their order |
| MainV6.ColumnsOfUniformRecords | OLD_VERS/main6.py:106 | records that share their keys give a table with those columns |
| MainV6.SelectNothing | OLD_VERS/main6.py:118 | leaving out an empty set of columns keeps every column in its order |
| MainV6.SelectAll | OLD_VERS/main6.py:118 | when every column is chosen, none is left over |
| MainV6.SelectNone | OLD_VERS/main6.py:118 | no columns are left over when the chosen set covers them all |
| MainV6.ValidationCsv | OLD_VERS/main6.py:104-120 | no CSV is written for zero rows; otherwise one record per row |
| MainV6.Records | OLD_VERS/main6.py:99 | one CSV record per row |
| MainV6.RecordsStep | OLD_VERS/main6.py:99 | one more row appends its record |
| MainV6.RecordsColumns | OLD_VERS/main6.py:106 | the table's columns are the rules' keys in first-set order |
| MainV6.ValidationHeader | OLD_VERS/main6.py:104-120 | the CSV header is the reordered key order: priority columns first, then the others |
| MainV6.RenderField | OLD_VERS/main6.py:55-95 | the rule loop's body gives the formatted field and the record with this rule's entry set |
| MainV6.RenderRow | OLD_VERS/main6.py:45-99 | the rule loop gives the row's line and its CSV record, whose keys are the rules' keys |
| MainV6.RenderRows | OLD_VERS/main6.py:45-99 | the row loop gives the lines and the records of the rows, in order |
| MainV6.Process | OLD_VERS/main6.py:31-120 | the lines and the CSV are those of the rows of clean-up/join/sort |
| Legacy.Assemble | main2.py:96-111 | the line is as long as its fourteen values together |
| Legacy.PrefixLength | main2.py:96-111 | the values before slot `k` are as long as the widths before it |
| Legacy.Placement | main2.py:96-111 | when every value fits, slot `k` of the line is exactly value `k` |
| Legacy.StandardOffsets | main3.py:96-111 | the slot offsets: 0, 46, 57, 60, 64, 74, 89, 104, 119, 121, 203, 211, then the date, "J" and the CNPJ; 226 plus the date width in all |
| Legacy.WideNameOffsets | main.py:79-94 | a name slot `n` wide moves every later slot by `n - 46`; the line is `n + 180 + date width` |
| Legacy.StandardLength | main4.3.py:99-104 | a record whose values fit is 226 characters plus the date |
| Legacy.Units | OLD_VERS/main4.py:96 | `int()` of the amount: the whole units, truncated toward zero |
| Legacy.ZeroPad | main4.3.py:92-96 | the numeric fields are zero-padded but not cut: `max(len, width)` long |
| Legacy.NameSlot | main4.3.py:91 | the name field is always 46 characters: the name, cut to 46, then spaces |
| Legacy.WriteLines | main2.py:39-114 | the row loop writes one line per row, in row order, each the row's formatted line |
| MainV1.NotFoundLine | main.py:43-47 | an unmatched row is written as "# CPF NÃO ENCONTRADO: ", its cpf, " (Conta: ", its account and ")" |
| MainV1.NoOverride | main.py:62-68 | a matched row's bank, branch and account slots end with the account file's own values |
| MainV1.ExcludedAccountHasThree | main.py:68 | an account that the later versions exclude contains a '3' |
| MainV1.ExcludedAccountKept | main.py:62-68 | an account beginning with 38 or 39 is not replaced: its slot is never the zeroed account |
| MainV1.SalarySlot | main.py:75-76 | the salary slot is 15 digits that read back as the amount in cents (0 when missing) |
| MainV1.LongNameShiftsLine | main.py:56 | the name is padded but not cut: the line is `max(len(name), 46) + 188` long and the cpf starts where the name ends |
| MainV1.WriteLines | main.py:41-100 | the row loop writes a comment for an unmatched row and a record otherwise, one per row in order |
| MainV1.Process | main.py:29-100 | line `i` is for account row `i`; it is the comment when the joined row has no name (every account whose cpf is not on the roster, and a matched roster row with a blank name) and the fixed-width record otherwise |
| MainV2.NotFoundDefaults | main2.py:57-61 | a missing employee is written with a blank name, registration zeros, salary zeros and the override triplet |
| MainV2.OverrideRule | main2.py:64-80 | the override (041, 0000, 0000000000) is taken exactly when the employee is missing or the stripped account begins with 38/39; otherwise the unstripped originals end their slots |
| MainV2.SalarySlot | main2.py:93 | the salary slot is 15 digits that read back as the amount in cents |
| MainV2.LineLayout | main2.py:96-111 | when the values fit, the line is 234 characters with the name, the salary and each constant (15 zeros, "00", 82 and 8 spaces, 20220220, "J", the CNPJ) at its offset |
| MainV2.Process | main2.py:28-114 | one line per account row, in merge order, each the line of its joined row |
| MainV3.Process | main3.py:28-114 | the same lines as `main2.py`, one per account row, in name order |
| MainV3.UnmatchedLinesLast | main3.py:38 | after the first line for a missing employee every line is one (blank name, zeroed account); found employees come first, in name order |
| MainV4.SalaryTwice | OLD_VERS/main4.py:96-100 | the salary is written twice, in whole units: read back, it is the amount with the cents dropped |
| MainV4.LineLayout | OLD_VERS/main4.py:98-103 | when the values fit, the line is 226 plus the date long: the same salary in both amount slots, two spaces of occurrence code, the date, "J" and the CNPJ at their offsets |
| MainV4.Process | OLD_VERS/main4.py:35-105 | one line per joined row, at least one per account row, in name order; `date` stands for today's date |
| MainV43.FillBankColumns | main4.3.py:51-53 | the loop over the three bank columns leaves each row with its bank columns filled ("0" for a missing value) |
| MainV43.SentinelOverride | main4.3.py:81-84 | a row whose account is "0" takes the override |
| MainV43.MissingAccountOverride | main4.3.py:51-53 | an employee with no account is written with 041, 0000 and 0000000000 |
| MainV43.OverrideRule | main4.3.py:75-88 | the override is taken exactly when the stripped account is "0" or begins with 38/39; otherwise the stripped values end their slots |
| MainV43.Rows | main4.3.py:39-57 | the pipeline with the fill loop gives the specified rows |
| MainV43.Process | main4.3.py:33-106 | at least one line per roster row, one per filled row in name order |
| MainV43.EveryEmployeeWritten | main4.3.py:45-88 | every roster row is written, and one whose cpf has no account gets the override triplet |

## Findings

| source | as written | input that shows it | evidently intended | confidence | as-written member | corrected member |
|---|---|---|---|---|---|---|
| main.py:56 | the name is padded with `ljust(46)` but never cut | a 47-character name gives a 235-character line, with every later field one place to the right | the name cut to 46 characters so every field keeps its offset, as `main2.py:87` does with `nome[:46]` | high; not executed | MainV1.LongNameShiftsLine | MainV2.LineLayout |

## Left out

- The tkinter GUI (`App`, dialogs, `messagebox`), `status_callback` and the console `print` diagnostics are not modelled. They produce no output-file content.
- Reading the spreadsheets (`read_excel`), writing the text file and writing the CSV are not modelled. The model starts from the parsed tables and ends at the list of lines and the CSV record table. The newline after each line is not modelled.
- The CSV text is not modelled: the `;` separator, the UTF-8 BOM, float rendering, and deriving the CSV path from the output path. On zero rows `OLD_VERS/main6.py` writes no CSV. Its closing message then refers to a CSV path that was never set, so the run ends in the error handler. That message is not modelled; the model returns no CSV.
- Float parsing and the rounding of `float(x) * 100` are not modelled. Salaries are exact cents: `int(x * 100)` is the cents and `int(x)` is `Legacy.Units`. An amount whose binary float times 100 falls just below a whole number is not modelled.
- pandas dtype promotion is not modelled. An integer column with missing cells becomes float after a join, and `str()` then writes "123.0". Registrations are written as integers.
- Extra spreadsheet columns are not modelled. A rule naming a column outside the roster and account columns reads "".
- Blank cells in the account file are not modelled: account cells are present strings. A missing registration in the roster is not modelled either.
- `datetime.date.today()` is not modelled. `OLD_VERS/main4.py` takes the payment date as the `date` parameter.
- The order pandas gives to rows that tie in a sort is not modelled. Sorts are specified by order plus permutation only. Names are compared by code point.
- The exception handlers (missing file, missing column) are not modelled. They only report and stop.
- An unparsable salary cell is not modelled for the five hard-coded versions. `main.py`, `main2.py`, `main3.py`, `OLD_VERS/main4.py` and `main4.3.py` call `float()` on the cell with no guard, so a text such as "1.234,56" raises and the run stops in the error handler with a partial file. In their modules `None` stands only for a missing cell, written as 0.
- MainV4.SalaryTwice: states the value read back only for a non-negative amount whose whole units fit in 15 digits. A negative amount writes a '-' sign that this model does not read back.
- MainV2.SalarySlot, MainV1.SalarySlot: as above, stated for non-negative amounts that fit the 15 digits.
- Layout.SalarySlotReadsBack: the numeric read-back is stated only for a non-negative amount whose digits fit the width. `Layout.SalaryFieldShape` gives the slot's text for every amount, including a negative one (zeros, '-', digits) and an overlong one (cut).
- MainV6.SalaryColumnMatchesSlot: as `Layout.SalarySlotReadsBack`, the slot's read-back is stated only for a non-negative amount that fits the width.
- MainV2.LineLayout, MainV4.LineLayout, MainV1.LongNameShiftsLine: stated for values no wider than their slots. Wider values are not cut and lengthen the line, which is the same effect as the Finding above.
