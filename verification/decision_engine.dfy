/** The loan decision: input validation, the credit modifier of the applicant's segment,
    and the amount/period calculation of DecisionEngine. */
module DecisionEngine {
  import opened EngineConstants
  import opened Decisions
  import opened PersonalCodes

  /** The failures verifyInputs can report, one per check. */
  datatype ValidationError =
    | InvalidPersonalCode
    | TooYoung
    | TooOld
    | InvalidLoanAmount
    | InvalidLoanPeriod
  {
    /** The message of the exception the check throws. */
    function Message(): string {
      match this
      case InvalidPersonalCode => "Invalid personal ID code!"
      case TooYoung => "Too young to get a loan!"
      case TooOld => "Too old to get a loan!"
      case InvalidLoanAmount => "Invalid loan amount!"
      case InvalidLoanPeriod => "Invalid loan period!"
    }

    /** The position of the check in the order verifyInputs performs them. */
    function Rank(): nat {
      match this
      case InvalidPersonalCode => 0
      case TooYoung => 1
      case TooOld => 2
      case InvalidLoanAmount => 3
      case InvalidLoanPeriod => 4
    }

    /** Age failures are InvalidLoanerAgeException, a Throwable that is not an Exception. */
    predicate IsAgeError() {
      TooYoung? || TooOld?
    }
  }

  /** Whether check `e`, looked at on its own and regardless of the others, fails. */
  predicate Fails(c: Constants, code: PersonalCode, amount: int, period: int, e: ValidationError) {
    match e
    case InvalidPersonalCode => !code.isValid
    case TooYoung => code.ageInMonths < c.minimumLoanerAge * 12
    // the longest allowed loan would end after the expected lifetime
    case TooOld => code.ageInMonths + c.maximumLoanPeriod > c.expectedLifetime * 12
    case InvalidLoanAmount => amount < c.minimumLoanAmount || c.maximumLoanAmount < amount
    case InvalidLoanPeriod => period < c.minimumLoanPeriod || c.maximumLoanPeriod < period
  }

  /** getMaximumAgeMonths: the age at which a loan of the longest allowed period ends exactly at
      the expected lifetime. */
  function MaximumAgeMonths(c: Constants): (r: int)
    ensures r + c.maximumLoanPeriod == c.expectedLifetime * 12
  {
    c.expectedLifetime * 12 - c.maximumLoanPeriod
  }

  /** verifyInputs: the checks run in a fixed order and the first one that fails is
      reported; None means every check passed. */
  function VerifyInputs(c: Constants, code: PersonalCode, amount: int, period: int): (r: Option<ValidationError>)
    ensures r.None? ==> forall e: ValidationError :: !Fails(c, code, amount, period, e)
    ensures r.Some? ==> Fails(c, code, amount, period, r.value)
    ensures r.Some? ==> forall e: ValidationError :: e.Rank() < r.value.Rank() ==> !Fails(c, code, amount, period, e)
  {
    if !code.isValid then Some(InvalidPersonalCode)
    else if code.ageInMonths < c.minimumLoanerAge * 12 then Some(TooYoung)
    else if code.ageInMonths > MaximumAgeMonths(c) then Some(TooOld)
    else if !(c.minimumLoanAmount <= amount) || !(amount <= c.maximumLoanAmount) then Some(InvalidLoanAmount)
    else if !(c.minimumLoanPeriod <= period) || !(period <= c.maximumLoanPeriod) then Some(InvalidLoanPeriod)
    else None
  }

  /** The credit modifier of each quarter of 0..9999: the debt segment first, then segments 1 to 3. */
  function SegmentModifiers(c: Constants): seq<int> {
    [0, c.segment1CreditModifier, c.segment2CreditModifier, c.segment3CreditModifier]
  }

  /** getCreditModifier: the last four digits fall into one of four segments of 2500 values each. */
  function CreditModifier(c: Constants, s: SegmentDigits): (r: int)
    ensures r == SegmentModifiers(c)[s / 2500]
  {
    if s < 2500 then 0
    else if s < 5000 then c.segment1CreditModifier
    else if s < 7500 then c.segment2CreditModifier
    else c.segment3CreditModifier
  }

  function Abs(x: int): nat {
    if x < 0 then -x else x
  }

  /** Java's integer division, which rounds toward zero. */
  function JavaDiv(a: int, b: int): (q: int)
    requires b != 0
    ensures a >= 0 && b > 0 ==> q * b <= a < (q + 1) * b
    ensures a < 0 && b > 0 ==> (q - 1) * b < a <= q * b
    ensures a <= 0 && b > 0 ==> q <= 0
  {
    var m := Abs(a) / Abs(b);
    if (a < 0) == (b < 0) then m else -m
  }

  function Min(a: int, b: int): int {
    if a <= b then a else b
  }

  /** A loan of `amount` over `period` months is valid for the modifier when the amount does
      not exceed modifier * period / (10 * MINIMUM_APPROVED_CREDIT_SCORE), stated without
      fractions. */
  predicate Supports(c: Constants, modifier: int, period: int, amount: int) {
    amount * c.scoreDivisor <= modifier * period
  }

  /** maximumValidLoanAmount: the largest valid amount for the modifier and period. */
  function MaximumValidLoanAmount(c: Constants, modifier: int, period: int): (r: int)
    requires c.Valid()
    ensures modifier * period >= 0 ==> Supports(c, modifier, period, r) && !Supports(c, modifier, period, r + 1)
    ensures modifier * period <= 0 ==> r <= 0
  {
    JavaDiv(modifier * period, c.scoreDivisor)
  }

  lemma MulMonotone(a: int, b: int, k: int)
    requires a <= b && 0 <= k
    ensures a * k <= b * k
  {
    assert b * k - a * k == (b - a) * k;
  }

  /** The amount the requested period yields, once it reaches the minimum, is a valid loan. */
  lemma RequestedTermsValid(c: Constants, modifier: int, period: int)
    requires c.Valid()
    ensures var amount := Min(MaximumValidLoanAmount(c, modifier, period), c.maximumLoanAmount);
      amount >= c.minimumLoanAmount ==> Supports(c, modifier, period, amount)
  {
    var m := MaximumValidLoanAmount(c, modifier, period);
    var amount := Min(m, c.maximumLoanAmount);
    if amount >= c.minimumLoanAmount {
      MulMonotone(amount, m, c.scoreDivisor);
    }
  }

  /** minimumLoanPeriod: the integer division has already rounded down before Math.ceil sees
      its result, so the ceiling changes nothing and the period is the exact quotient rounded
      DOWN. */
  function MinimumLoanPeriod(c: Constants, modifier: int): (r: int)
    requires c.Valid() && modifier != 0
    ensures modifier > 0 ==> r * modifier <= c.scoreDivisor * c.minimumLoanAmount < (r + 1) * modifier
  {
    JavaDiv(c.scoreDivisor * c.minimumLoanAmount, modifier)
  }

  /** minimumLoanPeriod as its documentation intends: the shortest period at which the minimum
      loan amount is valid, i.e. the exact quotient rounded UP. */
  function MinimumLoanPeriodDocumented(c: Constants, modifier: int): (r: int)
    requires c.Valid() && modifier > 0
    ensures Supports(c, modifier, r, c.minimumLoanAmount)
    ensures !Supports(c, modifier, r - 1, c.minimumLoanAmount)
  {
    var need := c.scoreDivisor * c.minimumLoanAmount;
    var q := (need + modifier - 1) / modifier;
    assert q * modifier <= need + modifier - 1 < (q + 1) * modifier;
    q
  }

  /** The two-point search of calculateApprovedLoan after the debt check: the requested period
      with the amount capped at the maximum, or else the minimum amount over `extendedPeriod`,
      if that period is still allowed. */
  function ChooseTerms(c: Constants, modifier: int, period: int, extendedPeriod: int): (r: Outcome)
    requires c.Valid()
    ensures r.NoValidLoan? || r.Approved?
    ensures r.Approved? ==> c.minimumLoanAmount <= r.amount <= c.maximumLoanAmount
    ensures r.NoValidLoan? ==> extendedPeriod > c.maximumLoanPeriod
    ensures r.Approved? && r.period != period ==>
      r.amount == c.minimumLoanAmount && r.period == extendedPeriod <= c.maximumLoanPeriod
    ensures modifier >= 0 && period >= 0 && r.Approved? && r.period == period ==>
      r.amount == c.maximumLoanAmount || !Supports(c, modifier, period, r.amount + 1)
  {
    var amount := Min(MaximumValidLoanAmount(c, modifier, period), c.maximumLoanAmount);
    if amount < c.minimumLoanAmount then
      if extendedPeriod > c.maximumLoanPeriod then NoValidLoan
      else Approved(c.minimumLoanAmount, extendedPeriod)
    else Approved(amount, period)
  }

  /** The calculation of calculateApprovedLoan for a validated request, as written. */
  function Calculate(c: Constants, modifier: int, period: int): (r: Outcome)
    requires c.Valid() && modifier >= 0
    ensures r.NoValidLoan? || r.Approved?
    ensures modifier == 0 ==> r == NoValidLoan
    ensures r.Approved? ==> c.minimumLoanAmount <= r.amount <= c.maximumLoanAmount
  {
    if modifier == 0 then NoValidLoan
    else ChooseTerms(c, modifier, period, MinimumLoanPeriod(c, modifier))
  }

  /** The same calculation with the minimum period rounded up as documented. */
  function CalculateDocumented(c: Constants, modifier: int, period: int): (r: Outcome)
    requires c.Valid() && modifier >= 0
    ensures r.NoValidLoan? || r.Approved?
    ensures modifier == 0 ==> r == NoValidLoan
    ensures r.Approved? ==> Supports(c, modifier, r.period, r.amount)
    ensures r.Approved? ==> c.minimumLoanAmount <= r.amount <= c.maximumLoanAmount
  {
    if modifier == 0 then NoValidLoan
    else
      RequestedTermsValid(c, modifier, period);
      ChooseTerms(c, modifier, period, MinimumLoanPeriodDocumented(c, modifier))
  }

  /** How a failed check leaves calculateApprovedLoan. A failure other than the age check is
      caught and returned as a Decision with its message; an age failure is not an Exception
      and escapes the catch. */
  function Rejection(e: ValidationError): (r: Outcome)
    ensures r.InvalidLoanerAge? <==> e.IsAgeError()
    ensures r.Rejected? <==> !e.IsAgeError()
    ensures (r.Rejected? || r.InvalidLoanerAge?) && r.message == e.Message()
  {
    if e.IsAgeError() then InvalidLoanerAge(e.Message()) else Rejected(e.Message())
  }

  /** calculateApprovedLoan, as written. */
  function CalculateApprovedLoan(c: Constants, code: PersonalCode, amount: int, period: int): (r: Outcome)
    requires c.Valid()
    ensures r.Rejected? || r.InvalidLoanerAge? <==> VerifyInputs(c, code, amount, period).Some?
    ensures r.Approved? ==> c.minimumLoanAmount <= r.amount <= c.maximumLoanAmount
  {
    match VerifyInputs(c, code, amount, period)
    case Some(e) => Rejection(e)
    case None => Calculate(c, CreditModifier(c, code.lastFourDigits), period)
  }

  /** calculateApprovedLoan with the minimum period rounded up as documented: it validates the
      same way, and every loan it approves is valid for the applicant's modifier. */
  function CalculateApprovedLoanDocumented(c: Constants, code: PersonalCode, amount: int, period: int): (r: Outcome)
    requires c.Valid()
    ensures VerifyInputs(c, code, amount, period).Some? ==> r == CalculateApprovedLoan(c, code, amount, period)
    ensures r.Approved? ==> c.minimumLoanAmount <= r.amount <= c.maximumLoanAmount
    ensures r.Approved? ==> Supports(c, CreditModifier(c, code.lastFourDigits), r.period, r.amount)
  {
    match VerifyInputs(c, code, amount, period)
    case Some(e) => Rejection(e)
    case None => CalculateDocumented(c, CreditModifier(c, code.lastFourDigits), period)
  }
}
