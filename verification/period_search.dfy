/** An exhaustive reference for the engine's two-point search: scan every allowed period for
    the first one over which the minimum loan amount is valid. */
module PeriodSearch {
  import opened EngineConstants
  import opened Decisions
  import opened DecisionEngine
  import opened DecisionEngineProofs
  import opened MinimumPeriodFinding

  /** Scans `[MINIMUM_LOAN_PERIOD, MAXIMUM_LOAN_PERIOD]` in order for the first period over
      which the minimum loan amount is valid. */
  method ShortestValidPeriod(c: Constants, modifier: int) returns (found: bool, p: int)
    requires c.Valid()
    ensures found ==> c.minimumLoanPeriod <= p <= c.maximumLoanPeriod
    ensures found ==> Supports(c, modifier, p, c.minimumLoanAmount)
    ensures found ==> forall q :: c.minimumLoanPeriod <= q < p ==> !Supports(c, modifier, q, c.minimumLoanAmount)
    ensures !found ==> forall q :: c.minimumLoanPeriod <= q <= c.maximumLoanPeriod ==> !Supports(c, modifier, q, c.minimumLoanAmount)
  {
    p := c.minimumLoanPeriod;
    while p <= c.maximumLoanPeriod && !Supports(c, modifier, p, c.minimumLoanAmount)
      invariant c.minimumLoanPeriod <= p <= c.maximumLoanPeriod + 1
      invariant forall q :: c.minimumLoanPeriod <= q < p ==> !Supports(c, modifier, q, c.minimumLoanAmount)
      decreases c.maximumLoanPeriod + 1 - p
    {
      p := p + 1;
    }
    found := p <= c.maximumLoanPeriod;
  }

  /** What a scan result says about the engine, which tries only two periods. With the
      documented rounding the scan finds nothing exactly when the engine finds no valid loan,
      and a found period is the one the fallback approves. As written, a NoValidLoan outcome
      still means the scan finds nothing, and the fallback approves the found period or the
      month before it. */
  lemma ScanAgreesWithEngine(c: Constants, modifier: int, period: int, found: bool, p: int)
    requires c.Valid() && modifier >= 0
    requires c.minimumLoanPeriod <= period <= c.maximumLoanPeriod
    requires found ==> c.minimumLoanPeriod <= p <= c.maximumLoanPeriod
    requires found ==> Supports(c, modifier, p, c.minimumLoanAmount)
    requires found ==> forall q :: c.minimumLoanPeriod <= q < p ==> !Supports(c, modifier, q, c.minimumLoanAmount)
    requires !found ==> forall q :: c.minimumLoanPeriod <= q <= c.maximumLoanPeriod ==> !Supports(c, modifier, q, c.minimumLoanAmount)
    ensures !found <==> CalculateDocumented(c, modifier, period) == NoValidLoan
    ensures found && !Supports(c, modifier, period, c.minimumLoanAmount) ==>
      CalculateDocumented(c, modifier, period) == Approved(c.minimumLoanAmount, p)
    ensures Calculate(c, modifier, period) == NoValidLoan ==> !found
    ensures modifier > 0 && found && !Supports(c, modifier, period, c.minimumLoanAmount) ==>
      && Calculate(c, modifier, period) == Approved(c.minimumLoanAmount, MinimumLoanPeriod(c, modifier))
      && p - 1 <= MinimumLoanPeriod(c, modifier) <= p
  {
    NoValidLoanIffNoPeriodSupportsMinimum(c, modifier, period);
    if found && !Supports(c, modifier, period, c.minimumLoanAmount) {
      FallbackDocumented(c, modifier, period);
      FallbackAsWritten(c, modifier, period);
      DocumentedPeriodIsShortest(c, modifier, p);
      DocumentedPeriodIsShortest(c, modifier, MinimumLoanPeriodDocumented(c, modifier));
      CorrectedPeriodVersusAsWritten(c, modifier);
    }
  }
}
