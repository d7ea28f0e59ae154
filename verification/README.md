# Loan decision engine — a Dafny model

This project models the `DecisionEngine` service of a loan decision backend. Given an applicant's
Estonian personal ID code, a requested loan amount and a requested period in months, the engine
does three things in turn:

1. It validates the inputs. The checks run in a fixed order: the code, then the applicant's age,
   then the amount, then the period. The first failure stops the checks.
2. It derives a credit modifier from the code's last four digits.
3. It computes the loan it will approve. It first tries the requested period, with the amount
   capped at the maximum. If that amount is below the minimum, it tries the minimum amount over
   `minimumLoanPeriod`. The documentation calls this the period that approves the minimum
   amount. The code rounds it down, so it can fall one month short (see Findings).

The model keeps both readings apart:

- `CalculateApprovedLoan`, `Calculate` and `MinimumLoanPeriod` follow the code as written.
- `CalculateApprovedLoanDocumented`, `CalculateDocumented` and `MinimumLoanPeriodDocumented`
  round the minimum period up, as documented.

Properties that hold only for the documented rounding say so in the table below.

Modules:

- `EngineConstants` (`constants.dfy`): the `DecisionEngineConstants` values as a `Constants` record.
  `Valid()` requires every constant to be positive and both the amount range and the period range
  to be non-empty. The field `scoreDivisor` stands for `10 * MINIMUM_APPROVED_CREDIT_SCORE`.
  It is a positive integer.
- `PersonalCodes` (`personal_codes.dfy`): the ID code as the engine sees it. It has the
  validator's verdict, the parser's age in months, and the value of the last four digits.
- `Decisions` (`decisions.dfy`): the `Decision` object, plus `Outcome`. `Outcome` keeps the
  returned results (`Rejected`, `Approved`) apart from the thrown ones (`InvalidLoanerAge`,
  `NoValidLoan`).
- `DecisionEngine` (`decision_engine.dfy`): the engine's operations as pure functions.
- `DecisionEngineProofs` (`decision_engine_proofs.dfy`): properties of the operations.
- `PeriodSearch` (`period_search.dfy`): an exhaustive scan of every allowed period. It serves as
  a reference for the engine, which tries only two periods.
- `MinimumPeriodFinding` (`minimum_period_finding.dfy`): the rounding discrepancy described
  under Findings.

A loan of amount `a` over `p` months is *valid* for modifier `m` when `a * scoreDivisor <= m * p`.
`Supports` is this predicate. It says that `a` does not exceed
`m * p / (10 * MINIMUM_APPROVED_CREDIT_SCORE)`, written without fractions.
`maximumValidLoanAmount` computes that bound rounded down.

An invalid age raises `InvalidLoanerAgeException`. That class extends `Throwable`, not
`Exception`, so the `catch (Exception e)` around `verifyInputs` does not catch it, and it leaves
`calculateApprovedLoan` as an exception. This agrees with the method's `@throws` documentation.
So, unlike the other validation failures, an age failure is not returned as a `Decision`: the
model has it as the `InvalidLoanerAge` outcome. The classes of the other three validation exceptions are not part of
this model. They are taken to be caught, as the `catch` clause intends. Each of them becomes
`Rejected(message)`, which is returned as `Decision(null, null, message)`.

## Model

| member | source | states |
|---|---|---|
| DecisionEngine.VerifyInputs | src/main/java/ee/taltech/inbankbackend/service/DecisionEngine.java:126-153 | No error is reported only when no check fails. A reported error is a failing check, and every check that comes earlier in the order passes. So the first failure in the order code, too young, too old, amount, period is the one reported. |
| DecisionEngine.MaximumAgeMonths | src/main/java/ee/taltech/inbankbackend/service/DecisionEngine.java:159-161 | A loan of the longest allowed period, taken out at this age, ends exactly at the expected lifetime. `DecisionEngineProofs.AgeWindow` uses this to show that the too-old check means "the longest loan would end after the expected lifetime". |
| DecisionEngine.CreditModifier | src/main/java/ee/taltech/inbankbackend/service/DecisionEngine.java:91-113 | The modifier is the table entry `[0, SEGMENT_1, SEGMENT_2, SEGMENT_3]` at index `s / 2500`: each quarter of 0..9999 is one segment. |
| DecisionEngine.JavaDiv | src/main/java/ee/taltech/inbankbackend/service/DecisionEngine.java:79-81 | For a positive divisor, the only kind the engine uses, Java's integer quotient rounds toward zero. For a non-negative dividend it is the floor of the exact quotient; for a negative dividend it is the ceiling. |
| DecisionEngine.MaximumValidLoanAmount | src/main/java/ee/taltech/inbankbackend/service/DecisionEngine.java:75-81 | The result is a valid amount for the modifier and period, and one more is not valid. It is the largest valid amount. |
| DecisionEngine.RequestedTermsValid | src/main/java/ee/taltech/inbankbackend/service/DecisionEngine.java:58-62 | The amount the requested period yields (the largest valid amount capped at MAX_AMOUNT) is a valid loan whenever it reaches MIN_AMOUNT. |
| DecisionEngine.MinimumLoanPeriod | src/main/java/ee/taltech/inbankbackend/service/DecisionEngine.java:87-89 | As written: the period is `10*score*MIN_AMOUNT / modifier` rounded DOWN, `r*m <= need < (r+1)*m`, because the integer division rounds before `Math.ceil` sees the value. |
| DecisionEngine.MinimumLoanPeriodDocumented | src/main/java/ee/taltech/inbankbackend/service/DecisionEngine.java:83-89 | As documented (line 84): the minimum amount is valid over the returned period but not over one month less. |
| DecisionEngine.ChooseTerms | src/main/java/ee/taltech/inbankbackend/service/DecisionEngine.java:58-70 | The two-point search after the debt check. The outcome is NoValidLoan or an approval with amount in `[MIN_AMOUNT, MAX_AMOUNT]`. NoValidLoan happens only when the extended period exceeds MAX_PERIOD. An approval at a period other than the requested one is `(MIN_AMOUNT, extended period)` with the period at most MAX_PERIOD. An approval at the requested period has the largest valid amount, or MAX_AMOUNT when that is smaller; `DecisionEngineProofs.RequestedPeriodKept` shows that this amount is itself valid once it reaches MIN_AMOUNT. |
| DecisionEngine.Calculate | src/main/java/ee/taltech/inbankbackend/service/DecisionEngine.java:51-72 | As written, after validation: the outcome is NoValidLoan or an approval. Modifier 0 gives NoValidLoan, and an approved amount lies in `[MIN_AMOUNT, MAX_AMOUNT]`. |
| DecisionEngine.CalculateDocumented | src/main/java/ee/taltech/inbankbackend/service/DecisionEngine.java:51-72 | The same branches with the documented (rounded-up) minimum period. In addition, every approval is a valid loan. |
| DecisionEngine.CalculateApprovedLoan | src/main/java/ee/taltech/inbankbackend/service/DecisionEngine.java:42-73 | As written: the outcome is a validation outcome (Rejected or InvalidLoanerAge) exactly when validation fails. An approved amount lies in `[MIN_AMOUNT, MAX_AMOUNT]`. |
| DecisionEngine.CalculateApprovedLoanDocumented | src/main/java/ee/taltech/inbankbackend/service/DecisionEngine.java:42-73 | With the documented rounding: a failed validation gives the same outcome as the code as written. An approved amount lies in `[MIN_AMOUNT, MAX_AMOUNT]`, and every approval is a valid loan for the applicant's modifier. |
| DecisionEngine.Rejection | src/main/java/ee/taltech/inbankbackend/service/DecisionEngine.java:45-49 | How a validation failure leaves through the `catch (Exception e)`. An age failure, whose exception is not an `Exception`, escapes as `InvalidLoanerAge`. Every other failure is caught and becomes `Rejected`. Either way the outcome carries the failure's message. |
| Decisions.ToDecision | src/main/java/ee/taltech/inbankbackend/service/DecisionEngine.java:45-49 | A returned outcome fills in either amount and period, or the message, never both. A rejection keeps its message; an approval keeps its terms. |
| DecisionEngineProofs.SupportsMonotoneInPeriod | src/main/java/ee/taltech/inbankbackend/service/DecisionEngine.java:79-81 | A loan valid over some period is valid over every longer period. |
| DecisionEngineProofs.SupportsMonotoneInModifier | src/main/java/ee/taltech/inbankbackend/service/DecisionEngine.java:79-81 | A loan valid for some modifier is valid for every larger modifier. |
| DecisionEngineProofs.SupportsIffAtMostMaximum | src/main/java/ee/taltech/inbankbackend/service/DecisionEngine.java:75-81 | An amount is valid if and only if it does not exceed `maximumValidLoanAmount`. |
| DecisionEngineProofs.MaximumValidLoanAmountMonotone | src/main/java/ee/taltech/inbankbackend/service/DecisionEngine.java:79-81 | `maximumValidLoanAmount` is non-decreasing in both the modifier and the period. |
| DecisionEngineProofs.DocumentedPeriodIsShortest | src/main/java/ee/taltech/inbankbackend/service/DecisionEngine.java:83-89 | With the documented rounding, the minimum amount is valid over a period if and only if that period is at least the minimum loan period. |
| DecisionEngineProofs.CreditModifierSegments | src/main/java/ee/taltech/inbankbackend/service/DecisionEngine.java:101-113 | The modifier is 0 if and only if `s < 2500`. `2500..4999` gives SEGMENT_1, `5000..7499` gives SEGMENT_2 and `7500..9999` gives SEGMENT_3. The modifier is never negative. |
| DecisionEngineProofs.RequestedPeriodKept | src/main/java/ee/taltech/inbankbackend/service/DecisionEngine.java:58-62 | If the minimum amount is valid over the requested period, that period is approved unchanged. The amount is the largest valid one not above MAX_AMOUNT. In this branch the code as written and the documented rounding agree. |
| DecisionEngineProofs.FallbackAsWritten | src/main/java/ee/taltech/inbankbackend/service/DecisionEngine.java:61-69 | As written: otherwise `minimumLoanPeriod` is at least (not necessarily more than) the requested period. If it exceeds MAX_PERIOD the outcome is NoValidLoan. If not, the approval is `(MIN_AMOUNT, minimumLoanPeriod)`. |
| DecisionEngineProofs.FallbackDocumented | src/main/java/ee/taltech/inbankbackend/service/DecisionEngine.java:61-69 | With the documented rounding, the fallback period is strictly longer than the requested period. If it exceeds MAX_PERIOD the outcome is NoValidLoan. If not, the approval is `(MIN_AMOUNT, that period)`. |
| DecisionEngineProofs.ApprovedPeriodInRange | src/main/java/ee/taltech/inbankbackend/service/DecisionEngine.java:59-72 | For a requested period in range, an approved period is at least the requested one and lies in `[MIN_PERIOD, MAX_PERIOD]`. This holds both as written and with the documented rounding. |
| DecisionEngineProofs.NoValidLoanIffNoPeriodSupportsMinimum | src/main/java/ee/taltech/inbankbackend/service/DecisionEngine.java:53-69 | With the documented rounding, the outcome is NoValidLoan if and only if no period in `[MIN_PERIOD, MAX_PERIOD]` makes the minimum amount valid. As written only one direction holds: NoValidLoan means no allowed period makes the minimum amount valid. |
| DecisionEngineProofs.AsWrittenNoValidLoanIsDocumented | src/main/java/ee/taltech/inbankbackend/service/DecisionEngine.java:61-69 | The rounded-down period is never longer than the rounded-up one, so when the code as written finds no valid loan, the documented rounding finds none either. |
| PeriodSearch.ShortestValidPeriod | src/main/java/ee/taltech/inbankbackend/service/DecisionEngine.java:83-89 | Scanning every allowed period in order gives the first period over which the minimum amount is valid. If no period qualifies, the scan reports that none exists. This is the exhaustive reference for the engine's two-point search. |
| PeriodSearch.ScanAgreesWithEngine | src/main/java/ee/taltech/inbankbackend/service/DecisionEngine.java:53-69 | Take any first-valid-period result over the allowed range. With the documented rounding, the scan finds nothing exactly when the engine ends in NoValidLoan, and a found period is the one the fallback approves. As written, NoValidLoan still means the scan finds nothing, and the fallback approves the minimum amount over the found period or the month before it. |
| DecisionEngineProofs.InvalidCodeReportedFirst | src/main/java/ee/taltech/inbankbackend/service/DecisionEngine.java:129-131 | An invalid code gives `Rejected("Invalid personal ID code!")`, whatever the age, amount and period. |
| DecisionEngineProofs.AgeWindow | src/main/java/ee/taltech/inbankbackend/service/DecisionEngine.java:138-142 | For a valid code, "Too young" is thrown if and only if `age < MIN_AGE*12`. "Too old" is thrown if and only if the age is not too young and the longest loan would end after the expected lifetime. Both boundary ages pass. `age > getMaximumAgeMonths()` is exactly that additive form. |
| DecisionEngineProofs.AmountChecked | src/main/java/ee/taltech/inbankbackend/service/DecisionEngine.java:144-147 | Once code and age pass, the amount is rejected if and only if it lies outside `[MIN_AMOUNT, MAX_AMOUNT]`. |
| DecisionEngineProofs.PeriodChecked | src/main/java/ee/taltech/inbankbackend/service/DecisionEngine.java:148-151 | Once code, age and amount pass, the period is rejected if and only if it lies outside `[MIN_PERIOD, MAX_PERIOD]`. |
| DecisionEngineProofs.RejectionIsDecisionWithoutCalculation | src/main/java/ee/taltech/inbankbackend/service/DecisionEngine.java:45-49 | A caught failure is `Decision(null, null, message)` and comes from validation. The segment digits do not change it, so no calculation took place. |
| DecisionEngineProofs.DebtSegmentNeverApproved | src/main/java/ee/taltech/inbankbackend/service/DecisionEngine.java:51-56 | Valid inputs with last four digits below 2500 give NoValidLoan, whatever the amount and period. |
| DecisionEngineProofs.ApprovalWithinBounds | src/main/java/ee/taltech/inbankbackend/service/DecisionEngine.java:59-72 | An approval has amount and period within their bounds and is a Decision with a null message, both as written and with the documented rounding. With the documented rounding it is also a valid loan for the applicant's modifier. |
| DecisionEngineProofs.RequestedAmountIrrelevant | src/main/java/ee/taltech/inbankbackend/service/DecisionEngine.java:51-72 | Two requests that differ only in amounts within range have the same outcome. |
| MinimumPeriodFinding.AsWrittenSupportsIffExact | src/main/java/ee/taltech/inbankbackend/service/DecisionEngine.java:87-89 | The rounded-down period makes the minimum amount valid if and only if the modifier divides `10*score*MIN_AMOUNT`. |
| MinimumPeriodFinding.CorrectedPeriodVersusAsWritten | src/main/java/ee/taltech/inbankbackend/service/DecisionEngine.java:83-89 | The documented period equals the written one, plus one exactly when the division is inexact. |
| MinimumPeriodFinding.ShortestPeriodUnique | src/main/java/ee/taltech/inbankbackend/service/DecisionEngine.java:83-89 | Only one period makes the minimum amount valid while the month before does not, and it is the documented minimum loan period. |
| MinimumPeriodFinding.AsWrittenApprovesInvalidLoan | src/main/java/ee/taltech/inbankbackend/service/DecisionEngine.java:61-69 | With the example constants, the code as written approves 2000 over 66 months, both in the calculation and for a full request, where only 1980 is valid. The documented rounding approves 67 months. |
| MinimumPeriodFinding.AsWrittenApprovesWithoutValidPeriod | src/main/java/ee/taltech/inbankbackend/service/DecisionEngine.java:61-69 | With the example constants and MAX_PERIOD 66, no allowed period makes 2000 valid for modifier 300. Yet the code as written approves (2000, 66), where the documented rounding finds no valid loan. |

## Left out

- The personal-code validator and parser are a third-party library. They appear only as the
  verdict, age and digits recorded in `PersonalCode`. The parser's `RuntimeException` path (a
  valid code that fails to parse) is taken never to happen.
- The current date is an input through `ageInMonths`, because `java.time.Period` reads the clock.
- `Integer.parseInt` and `substring` on the code are not modelled. The last four digits come in
  as an integer in 0..9999.
- A `null` amount would unbox to a `NullPointerException`, which the `catch` would turn into a
  Decision. It is not modelled, because the caller always supplies an amount.
- Java `int`/`long` overflow is not modelled; the model uses mathematical integers. So is a
  possible floating-point type for the constants. Division is modelled as Java's truncation
  toward zero (`JavaDiv`).
- The classes of `InvalidPersonalCodeException`, `InvalidLoanAmountException`,
  `InvalidLoanPeriodException` and `NoValidLoanException` are not part of this model. Only their
  messages and the channel they leave by are.
- Validation exceptions: if those three classes also extend `Throwable`, as
  `InvalidLoanerAgeException` does (InvalidLoanerAgeException.java:6), every validation failure
  escapes the `catch` and `Rejected` never occurs. The model takes them to be caught.
- Spring wiring (`@Service`) is not modelled.
- DecisionEngine.Calculate: it does not state that every approval is a valid loan, because that
  is false as written (see Findings). `CalculateDocumented` states it.
- DecisionEngine.CalculateApprovedLoan: likewise, validity of an approval is stated only for
  `CalculateApprovedLoanDocumented`.
- NoValidLoanIffNoPeriodSupportsMinimum: as written only the direction "NoValidLoan, so no
  allowed period is valid" holds. The converse fails (`AsWrittenApprovesWithoutValidPeriod`).
- ScanAgreesWithEngine: as written, a scan that finds nothing does not imply NoValidLoan (same
  witness).
- ApprovalWithinBounds: validity of an approval is stated only for the documented rounding,
  because as written it is false.
- DecisionEngine.MaximumValidLoanAmount: it characterises the result only for a non-negative
  product of modifier and period. That is the only case the engine reaches.

## Findings

| source | as written | input that shows it | evidently intended | confidence | as-written member | corrected member |
|---|---|---|---|---|---|---|
| src/main/java/ee/taltech/inbankbackend/service/DecisionEngine.java:87-89 | `Math.ceil` is applied to an integer quotient that is already rounded down. The returned period can then be one month too short to make the minimum amount valid, and the engine approves `MIN_AMOUNT` over it (lines 61-72). | Constants with `10*score = 10`, `MIN_AMOUNT = 2000`, periods 12..72. A valid code, age 480 months, last four digits 5000 (modifier 300), 2000 over 12 months. The code approves (2000, 66), but `300*66/10 = 1980 < 2000`. | The quotient rounded up (doc comment at line 84: the period that approves the minimum loan amount). This gives (2000, 67). | low, not executed: the discrepancy needs integer-typed constants and a modifier that does not divide `10*score*MIN_AMOUNT` | MinimumPeriodFinding.AsWrittenApprovesInvalidLoan | DecisionEngine.MinimumLoanPeriodDocumented |
| src/main/java/ee/taltech/inbankbackend/service/DecisionEngine.java:61-69 | Because of the same rounding, the engine approves `MIN_AMOUNT` even when no allowed period makes it valid. | The constants above with `MAX_PERIOD = 66`, modifier 300, requested period 12. No period in 12..66 makes 2000 valid, yet the code approves (2000, 66). | NoValidLoan whenever no allowed period makes the minimum amount valid. | low, not executed: needs integer-typed constants | MinimumPeriodFinding.AsWrittenApprovesWithoutValidPeriod | DecisionEngineProofs.NoValidLoanIffNoPeriodSupportsMinimum |
