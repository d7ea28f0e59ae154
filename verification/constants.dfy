/** The configuration the decision engine reads: the values of DecisionEngineConstants. */
module EngineConstants {

  /** One set of engine constants.
      `scoreDivisor` stands for the product 10 * MINIMUM_APPROVED_CREDIT_SCORE, the only
      form in which the minimum credit score enters either loan formula. */
  datatype Constants = Constants(
    minimumLoanAmount: int,
    maximumLoanAmount: int,
    minimumLoanPeriod: int,
    maximumLoanPeriod: int,
    minimumLoanerAge: int,
    expectedLifetime: int,
    scoreDivisor: int,
    segment1CreditModifier: int,
    segment2CreditModifier: int,
    segment3CreditModifier: int)
  {
    /** Every constant is positive and both ranges are non-empty. */
    predicate Valid() {
      && 0 < minimumLoanAmount <= maximumLoanAmount
      && 0 < minimumLoanPeriod <= maximumLoanPeriod
      && 0 < minimumLoanerAge
      && 0 < expectedLifetime
      && 0 < scoreDivisor
      && 0 < segment1CreditModifier
      && 0 < segment2CreditModifier
      && 0 < segment3CreditModifier
    }
  }
}
