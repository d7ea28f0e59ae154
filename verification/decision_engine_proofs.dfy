/** Properties of the loan decision: validity of loans, the segment table, the two branches of
    the calculation, and the outcomes of calculateApprovedLoan. */
module DecisionEngineProofs {
  import opened EngineConstants
  import opened Decisions
  import opened PersonalCodes
  import opened DecisionEngine

  /* ---------- Valid loans ---------- */

  /** A loan valid over some period stays valid over any longer period. */
  lemma SupportsMonotoneInPeriod(c: Constants, modifier: int, p1: int, p2: int, amount: int)
    requires c.Valid() && modifier >= 0 && p1 <= p2
    requires Supports(c, modifier, p1, amount)
    ensures Supports(c, modifier, p2, amount)
  {
    MulMonotone(p1, p2, modifier);
  }

  /** A loan valid for some modifier stays valid for any larger modifier. */
  lemma SupportsMonotoneInModifier(c: Constants, m1: int, m2: int, period: int, amount: int)
    requires c.Valid() && period >= 0 && m1 <= m2
    requires Supports(c, m1, period, amount)
    ensures Supports(c, m2, period, amount)
  {
    MulMonotone(m1, m2, period);
  }

  /** An amount is valid exactly when it does not exceed maximumValidLoanAmount. */
  lemma SupportsIffAtMostMaximum(c: Constants, modifier: int, period: int, amount: int)
    requires c.Valid() && modifier * period >= 0
    ensures Supports(c, modifier, period, amount) <==> amount <= MaximumValidLoanAmount(c, modifier, period)
  {
    var m := MaximumValidLoanAmount(c, modifier, period);
    if amount <= m {
      MulMonotone(amount, m, c.scoreDivisor);
    } else {
      MulMonotone(m + 1, amount, c.scoreDivisor);
    }
  }

  /** maximumValidLoanAmount is non-decreasing in the modifier and in the period. */
  lemma MaximumValidLoanAmountMonotone(c: Constants, m1: int, m2: int, p1: int, p2: int)
    requires c.Valid() && 0 <= m1 <= m2 && 0 <= p1 <= p2
    ensures MaximumValidLoanAmount(c, m1, p1) <= MaximumValidLoanAmount(c, m2, p2)
  {
    var a := MaximumValidLoanAmount(c, m1, p1);
    SupportsMonotoneInPeriod(c, m1, p1, p2, a);
    SupportsMonotoneInModifier(c, m1, m2, p2, a);
    SupportsIffAtMostMaximum(c, m2, p2, a);
  }

  /** The minimum loan period is the shortest period at which the minimum amount is valid. */
  lemma DocumentedPeriodIsShortest(c: Constants, modifier: int, q: int)
    requires c.Valid() && modifier > 0
    ensures Supports(c, modifier, q, c.minimumLoanAmount) <==> MinimumLoanPeriodDocumented(c, modifier) <= q
  {
    var p := MinimumLoanPeriodDocumented(c, modifier);
    if p <= q {
      SupportsMonotoneInPeriod(c, modifier, p, q, c.minimumLoanAmount);
    } else if Supports(c, modifier, q, c.minimumLoanAmount) {
      SupportsMonotoneInPeriod(c, modifier, q, p - 1, c.minimumLoanAmount);
    }
  }

  /* ---------- Credit modifier ---------- */

  /** The four segments of the last four digits and their modifiers; only the debt segment
      has modifier 0. */
  lemma CreditModifierSegments(c: Constants, s: SegmentDigits)
    requires c.Valid()
    ensures CreditModifier(c, s) == 0 <==> s < 2500
    ensures 2500 <= s < 5000 ==> CreditModifier(c, s) == c.segment1CreditModifier
    ensures 5000 <= s < 7500 ==> CreditModifier(c, s) == c.segment2CreditModifier
    ensures 7500 <= s ==> CreditModifier(c, s) == c.segment3CreditModifier
    ensures CreditModifier(c, s) >= 0
  {
  }

  /* ---------- The calculation ---------- */

  /** When the minimum amount is valid over the requested period, that period is kept and the
      amount is the largest valid one not above the maximum loan amount. Both roundings of the
      minimum period agree here, since neither is consulted. */
  lemma RequestedPeriodKept(c: Constants, modifier: int, period: int)
    requires c.Valid() && modifier > 0 && period >= 0
    requires Supports(c, modifier, period, c.minimumLoanAmount)
    ensures var r := Calculate(c, modifier, period);
      && r.Approved? && r.period == period
      && c.minimumLoanAmount <= r.amount <= c.maximumLoanAmount
      && Supports(c, modifier, period, r.amount)
      && (r.amount == c.maximumLoanAmount || !Supports(c, modifier, period, r.amount + 1))
    ensures CalculateDocumented(c, modifier, period) == Calculate(c, modifier, period)
  {
    SupportsIffAtMostMaximum(c, modifier, period, c.minimumLoanAmount);
    RequestedTermsValid(c, modifier, period);
    var r := Calculate(c, modifier, period);
    SupportsIffAtMostMaximum(c, modifier, period, r.amount + 1);
  }

  /** As written: when the minimum amount is not valid over the requested period, the engine
      offers the minimum amount over minimumLoanPeriod, which is at least the requested period,
      unless that period exceeds the maximum. */
  lemma FallbackAsWritten(c: Constants, modifier: int, period: int)
    requires c.Valid() && modifier > 0 && period >= 0
    requires !Supports(c, modifier, period, c.minimumLoanAmount)
    ensures MinimumLoanPeriod(c, modifier) >= period
    ensures MinimumLoanPeriod(c, modifier) > c.maximumLoanPeriod ==> Calculate(c, modifier, period) == NoValidLoan
    ensures MinimumLoanPeriod(c, modifier) <= c.maximumLoanPeriod ==>
      Calculate(c, modifier, period) == Approved(c.minimumLoanAmount, MinimumLoanPeriod(c, modifier))
  {
    SupportsIffAtMostMaximum(c, modifier, period, c.minimumLoanAmount);
    var q := MinimumLoanPeriod(c, modifier);
    if q < period {
      MulMonotone(q + 1, period, modifier);
    }
  }

  /** With the documented rounding the fallback period is strictly longer than the requested
      one, and is the shortest period over which the minimum amount is valid. */
  lemma FallbackDocumented(c: Constants, modifier: int, period: int)
    requires c.Valid() && modifier > 0 && period >= 0
    requires !Supports(c, modifier, period, c.minimumLoanAmount)
    ensures MinimumLoanPeriodDocumented(c, modifier) > period
    ensures MinimumLoanPeriodDocumented(c, modifier) > c.maximumLoanPeriod ==> CalculateDocumented(c, modifier, period) == NoValidLoan
    ensures MinimumLoanPeriodDocumented(c, modifier) <= c.maximumLoanPeriod ==>
      CalculateDocumented(c, modifier, period) == Approved(c.minimumLoanAmount, MinimumLoanPeriodDocumented(c, modifier))
  {
    SupportsIffAtMostMaximum(c, modifier, period, c.minimumLoanAmount);
    DocumentedPeriodIsShortest(c, modifier, period);
  }

  /** For a requested period in range, an approved period is never shorter than the requested
      one and never beyond the maximum, as written and as documented. */
  lemma ApprovedPeriodInRange(c: Constants, modifier: int, period: int)
    requires c.Valid() && modifier >= 0
    requires c.minimumLoanPeriod <= period <= c.maximumLoanPeriod
    ensures var r := Calculate(c, modifier, period);
      r.Approved? ==> period <= r.period && c.minimumLoanPeriod <= r.period <= c.maximumLoanPeriod
    ensures var r := CalculateDocumented(c, modifier, period);
      r.Approved? ==> period <= r.period && c.minimumLoanPeriod <= r.period <= c.maximumLoanPeriod
  {
    if modifier > 0 && !Supports(c, modifier, period, c.minimumLoanAmount) {
      FallbackAsWritten(c, modifier, period);
      FallbackDocumented(c, modifier, period);
    } else if modifier > 0 {
      RequestedPeriodKept(c, modifier, period);
    }
  }

  /** As documented, no valid loan is found exactly when no allowed period makes the minimum
      amount valid. As written only one direction holds: a NoValidLoan outcome still means no
      allowed period makes the minimum amount valid. */
  lemma NoValidLoanIffNoPeriodSupportsMinimum(c: Constants, modifier: int, period: int)
    requires c.Valid() && modifier >= 0
    requires c.minimumLoanPeriod <= period <= c.maximumLoanPeriod
    ensures CalculateDocumented(c, modifier, period) == NoValidLoan <==>
      forall q :: c.minimumLoanPeriod <= q <= c.maximumLoanPeriod ==> !Supports(c, modifier, q, c.minimumLoanAmount)
    ensures Calculate(c, modifier, period) == NoValidLoan ==>
      forall q :: c.minimumLoanPeriod <= q <= c.maximumLoanPeriod ==> !Supports(c, modifier, q, c.minimumLoanAmount)
  {
    DocumentedNoValidLoanIffNoPeriod(c, modifier, period);
    AsWrittenNoValidLoanIsDocumented(c, modifier, period);
  }

  lemma DocumentedNoValidLoanIffNoPeriod(c: Constants, modifier: int, period: int)
    requires c.Valid() && modifier >= 0
    requires c.minimumLoanPeriod <= period <= c.maximumLoanPeriod
    ensures CalculateDocumented(c, modifier, period) == NoValidLoan <==>
      forall q :: c.minimumLoanPeriod <= q <= c.maximumLoanPeriod ==> !Supports(c, modifier, q, c.minimumLoanAmount)
  {
    if modifier == 0 {
      forall q | c.minimumLoanPeriod <= q <= c.maximumLoanPeriod
        ensures !Supports(c, modifier, q, c.minimumLoanAmount)
      {
        assert c.minimumLoanAmount * c.scoreDivisor > 0;
      }
    } else if Supports(c, modifier, period, c.minimumLoanAmount) {
      RequestedPeriodKept(c, modifier, period);
    } else {
      FallbackDocumented(c, modifier, period);
      if CalculateDocumented(c, modifier, period) == NoValidLoan {
        forall q | c.minimumLoanPeriod <= q <= c.maximumLoanPeriod
          ensures !Supports(c, modifier, q, c.minimumLoanAmount)
        {
          DocumentedPeriodIsShortest(c, modifier, q);
        }
      } else {
        DocumentedPeriodIsShortest(c, modifier, MinimumLoanPeriodDocumented(c, modifier));
      }
    }
  }

  /** The rounded-down period is never longer than the rounded-up one, so whenever the code as
      written finds no valid loan, the documented rounding finds none either. */
  lemma AsWrittenNoValidLoanIsDocumented(c: Constants, modifier: int, period: int)
    requires c.Valid() && modifier >= 0
    requires c.minimumLoanPeriod <= period <= c.maximumLoanPeriod
    ensures Calculate(c, modifier, period) == NoValidLoan ==> CalculateDocumented(c, modifier, period) == NoValidLoan
  {
    if modifier > 0 && !Supports(c, modifier, period, c.minimumLoanAmount) {
      FallbackDocumented(c, modifier, period);
      FallbackAsWritten(c, modifier, period);
      var down := MinimumLoanPeriod(c, modifier);
      var up := MinimumLoanPeriodDocumented(c, modifier);
      if up < down {
        MulMonotone(up, down, modifier);
      }
    } else if modifier > 0 {
      RequestedPeriodKept(c, modifier, period);
    }
  }

  /* ---------- calculateApprovedLoan ---------- */

  /** An invalid personal code is reported before age, amount or period are looked at. */
  lemma InvalidCodeReportedFirst(c: Constants, code: PersonalCode, amount: int, period: int)
    requires c.Valid() && !code.isValid
    ensures CalculateApprovedLoan(c, code, amount, period) == Rejected(InvalidPersonalCode.Message())
  {
  }

  /** For a valid code the age is checked next: too young below the minimum age, too old when
      the longest allowed loan would end after the expected lifetime; both boundaries pass. */
  lemma AgeWindow(c: Constants, code: PersonalCode, amount: int, period: int)
    requires c.Valid() && code.isValid
    ensures var r := CalculateApprovedLoan(c, code, amount, period);
      && (r == InvalidLoanerAge(TooYoung.Message()) <==> code.ageInMonths < c.minimumLoanerAge * 12)
      && (r == InvalidLoanerAge(TooOld.Message()) <==>
            c.minimumLoanerAge * 12 <= code.ageInMonths
            && code.ageInMonths + c.maximumLoanPeriod > c.expectedLifetime * 12)
      && (r.InvalidLoanerAge? <==>
            code.ageInMonths < c.minimumLoanerAge * 12 || code.ageInMonths > MaximumAgeMonths(c))
    ensures code.ageInMonths > MaximumAgeMonths(c) <==>
      code.ageInMonths + c.maximumLoanPeriod > c.expectedLifetime * 12
  {
    assert TooYoung.Message() != TooOld.Message() by {
      assert TooYoung.Message()[4] != TooOld.Message()[4];
    }
  }

  /** With code and age accepted, the amount is rejected exactly outside its inclusive range. */
  lemma AmountChecked(c: Constants, code: PersonalCode, amount: int, period: int)
    requires c.Valid() && code.isValid
    requires c.minimumLoanerAge * 12 <= code.ageInMonths <= MaximumAgeMonths(c)
    ensures CalculateApprovedLoan(c, code, amount, period) == Rejected(InvalidLoanAmount.Message()) <==>
      !(c.minimumLoanAmount <= amount <= c.maximumLoanAmount)
  {
    assert InvalidLoanAmount.Message() != InvalidLoanPeriod.Message() by {
      assert InvalidLoanAmount.Message()[13] != InvalidLoanPeriod.Message()[13];
    }
  }

  /** With code, age and amount accepted, the period is rejected exactly outside its range. */
  lemma PeriodChecked(c: Constants, code: PersonalCode, amount: int, period: int)
    requires c.Valid() && code.isValid
    requires c.minimumLoanerAge * 12 <= code.ageInMonths <= MaximumAgeMonths(c)
    requires c.minimumLoanAmount <= amount <= c.maximumLoanAmount
    ensures CalculateApprovedLoan(c, code, amount, period) == Rejected(InvalidLoanPeriod.Message()) <==>
      !(c.minimumLoanPeriod <= period <= c.maximumLoanPeriod)
  {
  }

  /** A caught validation failure becomes a Decision with null amount, null period and the
      failure's message, and no calculation happens: the segment digits play no part. */
  lemma RejectionIsDecisionWithoutCalculation(c: Constants, code: PersonalCode, amount: int, period: int, other: SegmentDigits)
    requires c.Valid()
    requires CalculateApprovedLoan(c, code, amount, period).Rejected?
    ensures var r := CalculateApprovedLoan(c, code, amount, period);
      && ToDecision(r) == Decision(None, None, Some(r.message))
      && VerifyInputs(c, code, amount, period).Some?
      && CalculateApprovedLoan(c, code.(lastFourDigits := other), amount, period) == r
  {
  }

  /** Applicants in the debt segment never get a loan, whatever amount and period they ask. */
  lemma DebtSegmentNeverApproved(c: Constants, code: PersonalCode, amount: int, period: int)
    requires c.Valid() && code.lastFourDigits < 2500
    requires VerifyInputs(c, code, amount, period).None?
    ensures CalculateApprovedLoan(c, code, amount, period) == NoValidLoan
  {
  }

  /** Every approval lies within the configured bounds and is delivered as a Decision without
      an error message, as written and as documented; with the documented rounding it is also a
      valid loan. */
  lemma ApprovalWithinBounds(c: Constants, code: PersonalCode, amount: int, period: int)
    requires c.Valid()
    ensures var r := CalculateApprovedLoan(c, code, amount, period);
      r.Approved? ==>
        && c.minimumLoanAmount <= r.amount <= c.maximumLoanAmount
        && c.minimumLoanPeriod <= r.period <= c.maximumLoanPeriod
        && ToDecision(r) == Decision(Some(r.amount), Some(r.period), None)
    ensures var r := CalculateApprovedLoanDocumented(c, code, amount, period);
      r.Approved? ==>
        && c.minimumLoanAmount <= r.amount <= c.maximumLoanAmount
        && c.minimumLoanPeriod <= r.period <= c.maximumLoanPeriod
        && Supports(c, CreditModifier(c, code.lastFourDigits), r.period, r.amount)
        && ToDecision(r) == Decision(Some(r.amount), Some(r.period), None)
  {
    if VerifyInputs(c, code, amount, period).None? {
      CreditModifierSegments(c, code.lastFourDigits);
      ApprovedPeriodInRange(c, CreditModifier(c, code.lastFourDigits), period);
    }
  }

  /** Once validation passes, the requested amount has no influence on the outcome. */
  lemma RequestedAmountIrrelevant(c: Constants, code: PersonalCode, a1: int, a2: int, period: int)
    requires c.Valid()
    requires c.minimumLoanAmount <= a1 <= c.maximumLoanAmount
    requires c.minimumLoanAmount <= a2 <= c.maximumLoanAmount
    ensures CalculateApprovedLoan(c, code, a1, period) == CalculateApprovedLoan(c, code, a2, period)
  {
  }
}
