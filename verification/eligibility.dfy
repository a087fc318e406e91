/** The account eligibility rule: whether a row's own bank, branch and
    account can be used, or must be replaced by the fixed override triplet
    (bank 041, branch and account zeroed). Accounts whose number, once
    stripped of surrounding whitespace, begins with 38 or 39 are never used. */
module Eligibility {
  import opened Text

  datatype Decision = UseOriginal | UseOverride

  /** The stripped account number begins with "39" or "38". */
  predicate ExcludedAccount(conta: string) {
    var t := Strip(conta);
    StartsWith(t, "39") || StartsWith(t, "38")
  }

  lemma StartsWithPair(t: string, p: string)
    requires |p| == 2
    ensures StartsWith(t, p) <==> |t| >= 2 && t[0] == p[0] && t[1] == p[1]
  {
    if |t| >= 2 && t[0] == p[0] && t[1] == p[1] {
      assert t[..2] == p;
    }
  }

  lemma ExcludedAccountChars(conta: string)
    ensures ExcludedAccount(conta) <==>
              |Strip(conta)| >= 2 && Strip(conta)[0] == '3' && Strip(conta)[1] in {'8', '9'}
  {
    StartsWithPair(Strip(conta), "39");
    StartsWithPair(Strip(conta), "38");
  }

  /** The rule of the accounts-driving variants: override when the employee
      was not found in the roster or the account is excluded. */
  function DecideByMatch(found: bool, conta: string): (d: Decision)
    ensures d == UseOverride <==>
              !found || (|Strip(conta)| >= 2 && Strip(conta)[0] == '3' && Strip(conta)[1] in {'8', '9'})
  {
    ExcludedAccountChars(conta);
    if !found || ExcludedAccount(conta) then UseOverride else UseOriginal
  }

  /** The rule of the employees-driving variant: the found test is replaced
      by the "0" that fills a missing account; override when the stripped
      account is that sentinel or is excluded. */
  function DecideBySentinel(conta: string): (d: Decision)
    ensures d == UseOverride <==>
              Strip(conta) == "0"
              || (|Strip(conta)| >= 2 && Strip(conta)[0] == '3' && Strip(conta)[1] in {'8', '9'})
  {
    ExcludedAccountChars(conta);
    var t := Strip(conta);
    if t == "0" || StartsWith(t, "39") || StartsWith(t, "38") then UseOverride else UseOriginal
  }

  /** The decision is taken on the stripped account, so whitespace around the
      account number never changes it. */
  lemma DecisionIgnoresSurroundingSpace(found: bool, before: string, conta: string, after: string)
    requires AllSpace(before) && AllSpace(after)
    ensures DecideByMatch(found, before + conta + after) == DecideByMatch(found, conta)
    ensures DecideBySentinel(before + conta + after) == DecideBySentinel(conta)
  {
    StripIgnoresSurroundingSpace(before, conta, after);
  }

  /** A found employee whose account is " 38000123" gets the override; one
      whose account is "12000123" keeps the original. */
  lemma SampleDecisions()
    ensures DecideByMatch(true, " 38000123") == UseOverride
    ensures DecideByMatch(true, "12000123") == UseOriginal
  {
    assert " 38000123"[1..] == "38000123";
    assert StripLeft(" 38000123") == "38000123";
    assert StripRight("38000123") == "38000123";
    assert StripLeft("12000123") == "12000123";
    assert StripRight("12000123") == "12000123";
  }
}
