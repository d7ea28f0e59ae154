/** minimumLoanPeriod divides two integers before Math.ceil is applied, so the period it
    returns is rounded down, and the minimum loan amount is not always valid over it. */
module MinimumPeriodFinding {
  import opened EngineConstants
  import opened Decisions
  import opened PersonalCodes
  import opened DecisionEngine
  import opened DecisionEngineProofs

  /** The rounded-down period makes the minimum amount valid exactly when the modifier divides
      10 * MINIMUM_APPROVED_CREDIT_SCORE * MINIMUM_LOAN_AMOUNT. */
  lemma AsWrittenSupportsIffExact(c: Constants, modifier: int)
    requires c.Valid() && modifier > 0
    ensures Supports(c, modifier, MinimumLoanPeriod(c, modifier), c.minimumLoanAmount) <==>
      (c.scoreDivisor * c.minimumLoanAmount) % modifier == 0
  {
    var need := c.scoreDivisor * c.minimumLoanAmount;
    assert need == (need / modifier) * modifier + need % modifier;
  }

  /** The documented period is the written one, plus one whenever the division is inexact. */
  lemma CorrectedPeriodVersusAsWritten(c: Constants, modifier: int)
    requires c.Valid() && modifier > 0
    ensures MinimumLoanPeriodDocumented(c, modifier) ==
      MinimumLoanPeriod(c, modifier) + (if (c.scoreDivisor * c.minimumLoanAmount) % modifier == 0 then 0 else 1)
  {
    var q := MinimumLoanPeriod(c, modifier);
    AsWrittenSupportsIffExact(c, modifier);
    if Supports(c, modifier, q, c.minimumLoanAmount) {
      assert !Supports(c, modifier, q - 1, c.minimumLoanAmount) by {
        assert q * modifier - (q - 1) * modifier == modifier;
      }
      ShortestPeriodUnique(c, modifier, q);
    } else {
      assert Supports(c, modifier, q + 1, c.minimumLoanAmount);
      ShortestPeriodUnique(c, modifier, q + 1);
    }
  }

  /** Only one period makes the minimum amount valid while the month before does not. */
  lemma ShortestPeriodUnique(c: Constants, modifier: int, p: int)
    requires c.Valid() && modifier > 0
    requires Supports(c, modifier, p, c.minimumLoanAmount)
    requires !Supports(c, modifier, p - 1, c.minimumLoanAmount)
    ensures p == MinimumLoanPeriodDocumented(c, modifier)
  {
    DocumentedPeriodIsShortest(c, modifier, p);
    DocumentedPeriodIsShortest(c, modifier, p - 1);
  }

  /** Constants with an integer minimum credit score of 1 and periods up to 72 months. */
  const Example := Constants(2000, 10000, 12, 72, 18, 80, 10, 100, 300, 1000)

  /** As written, a segment-2 applicant asking for 12 months is approved the minimum 2000 over
      66 months, although 300 * 66 / 10 = 1980 is the most that is valid over 66 months. The
      documented rounding approves 2000 over 67 months, where 2010 is valid. The same holds for
      a full request: a valid code, age 40 years, last four digits 5000, 2000 over 12 months. */
  lemma AsWrittenApprovesInvalidLoan()
    ensures Example.Valid()
    ensures Calculate(Example, 300, 12) == Approved(2000, 66)
    ensures !Supports(Example, 300, 66, 2000)
    ensures MaximumValidLoanAmount(Example, 300, 66) == 1980
    ensures CalculateDocumented(Example, 300, 12) == Approved(2000, 67)
    ensures CalculateApprovedLoan(Example, PersonalCode(true, 480, 5000), 2000, 12) == Approved(2000, 66)
    ensures CalculateApprovedLoanDocumented(Example, PersonalCode(true, 480, 5000), 2000, 12) == Approved(2000, 67)
  {
  }

  /** The example constants with periods up to 66 months only. */
  const ExampleShort := Example.(maximumLoanPeriod := 66)

  /** With periods up to 66 months no allowed period makes 2000 valid for modifier 300, yet the
      code as written approves 2000 over 66 months; the documented rounding finds no valid loan. */
  lemma AsWrittenApprovesWithoutValidPeriod()
    ensures ExampleShort.Valid()
    ensures forall q :: 12 <= q <= 66 ==> !Supports(ExampleShort, 300, q, 2000)
    ensures Calculate(ExampleShort, 300, 12) == Approved(2000, 66)
    ensures CalculateDocumented(ExampleShort, 300, 12) == NoValidLoan
  {
  }
}
