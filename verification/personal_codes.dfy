/** The applicant's personal ID code as the engine sees it through the third-party
    validator and parser. */
module PersonalCodes {

  /** The value of the code's last four characters read as a decimal number. */
  type SegmentDigits = s: int | 0 <= s <= 9999

  /** `isValid` is the validator's verdict, `ageInMonths` the parser's age of the applicant
      today in whole months (consulted only for a valid code), and `lastFourDigits` the value
      of the code's last four digits. */
  datatype PersonalCode = PersonalCode(isValid: bool, ageInMonths: int, lastFourDigits: SegmentDigits)
}
