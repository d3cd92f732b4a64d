# Health-claims record validation, modelled in Dafny

This project models the validation and normalisation core of `Health_system.py`, a
claims pre-processor. Each row extracted from a claims table is a mapping from field
labels to raw text. `validate_record` cleans five fields from it: the patient ID, the
health card number, the version code, the date of birth and the service date. It then
runs five groups of rules, each of which appends its messages to one list, in a fixed
order. A record is valid exactly when the list stays empty. A valid record is
normalised into a `PatientRecord` whose dates are in ISO form. `main` runs this over a
batch of rows against one `today` and splits the batch into the valid records and an
error report of (patient ID, messages) pairs.

The model is split into modules that follow the program's parts:

- `Text` (text.dfy): the string operations the validator relies on. These are
  `str.strip()` with Python's whitespace set, `replace(" ", "")`, and ASCII
  `isdigit`, `isalpha` and `isupper`.
- `Calendar` (calendar.dfy): proleptic Gregorian dates with Python's `date`
  comparison, day ordinals, `today - timedelta(days=183)`, `isoformat()` and
  `age_in_years`.
- `DateParser` (date_parser.dfy): `parse_date_flex`. It contains a model of
  `datetime.strptime` for the five formats used. `strptime` compiles `%Y`, `%m` and
  `%d` into regular-expression alternatives and matches them with backtracking; it
  fails on unconverted trailing text and on dates that do not exist.
- `Luhn` (luhn.dfy): `luhn_check` as a method with its loop. It is proved against a
  reference definition that weighs the digits from the right. The check's
  error-detection properties are proved about that definition.
- `RecordValidator` (record_validator.dfy): the field reads, the four rule cascades,
  the patient-ID check and normalisation. Each is a specification function plus a
  method that appends to the error list in the order of the code.
- `BatchProcessor` (batch.dfy): the validation loop of `main` and the three counts.
- `Wrappers` (wrappers.dfy): `Option`.

`today` is a parameter everywhere; the program reads it from `date.today()`. The
`errors` list that `parse_date_flex` and the rules mutate is passed in and its new
value returned.

Three behaviours of the code are easy to misread; the model keeps them as written:

- The patient ID is `raw.get("Patient ID") or raw.get("PatientID")`. An empty value
  under the first label therefore falls through to the second. A whitespace-only value
  under the first label wins and is then stripped to nothing.
- Only the plain space is removed from inside the health card number. A tab or other
  whitespace inside it makes the card fail the digits-only rule.
- "1234567890", the card number shown in the documentation, fails the Luhn check: its
  weighted sum is 43.

## Model

| member | source | states |
|---|---|---|
| Text.StripShape | Health_system.py:88 | `strip()` returns a slice of its input; the slice is preceded and followed by whitespace only; a non-empty result starts and ends with a non-whitespace character; the result is empty exactly when the input is all whitespace |
| Text.StripUnchanged | Health_system.py:149-155 | text that neither starts nor ends with whitespace is unchanged by `strip()` |
| Text.StripIdempotent | Health_system.py:88 | stripping an already stripped field changes nothing |
| Text.RemoveSpacesShape | Health_system.py:151-152 | no plain space survives `replace(" ", "")`, and text without spaces comes through unchanged |
| Text.RemoveSpacesOfChar | Health_system.py:151-152 | `replace(" ", "")` drops a single space and keeps any other single character |
| Text.RemoveSpacesConcat | Health_system.py:151-152 | `replace(" ", "")` works piece by piece: on joined text it is the join of the two results, so every other character is kept, in order |
| Text.DigitValue | Health_system.py:47 | `int(d)` of a decimal digit is between 0 and 9 |
| Calendar.DaysInMonth | Health_system.py:100 | months have 28 to 31 days; 28 exactly for February of a common year, 29 exactly for February of a leap year, 30 exactly for April, June, September and November, 31 exactly for the other seven months |
| Calendar.OrdinalOrder | Health_system.py:182 | Python's date comparison (year, then month, then day) agrees with the order of day ordinals, both for `<` and for equality |
| Calendar.PrevDay | Health_system.py:204 | the day before a date (other than 0001-01-01) is a real date one ordinal earlier |
| Calendar.SubtractDays | Health_system.py:204 | `d - timedelta(days=n)` is a real date exactly n ordinals earlier when `d` is later than day n |
| Calendar.IsoFormat | Health_system.py:220-221 | `isoformat()` is ten characters, dashes at indexes 4 and 7, digits elsewhere, which read back as the year, month and day |
| Calendar.AgeInYears | Health_system.py:112-122 | the age is the number of completed years: the birthday of that many years is on or before `today`, and the next one is after it |
| Calendar.AgeIsUnique | Health_system.py:112-122 | no other count of years has its birthday reached while the next one is not |
| Calendar.AgeNegativeIffFuture | Health_system.py:119-121 | the age is negative exactly when the birth date is after `today` |
| Calendar.AgeExamples | Health_system.py:116-117 | born 2000-12-31, the age on 2025-01-01 is 24; born 2000-01-01, it is 25 |
| DateParser.NoAltMatches | Health_system.py:100 | when no alternative of the next token matches, the format does not match |
| DateParser.Strptime | Health_system.py:100 | a format succeeds only with a real calendar date |
| DateParser.YearFirstParses | Health_system.py:91-92 | a date written zero-padded year, separator, month, separator, day is read back by `%Y<sep>%m<sep>%d` as that date |
| DateParser.DayFirstParses | Health_system.py:93-94 | a date written zero-padded day, separator, month, separator, year is read back by `%d<sep>%m<sep>%Y` as that date |
| DateParser.CompactParses | Health_system.py:95 | eight digits, year then month then day, are read back by `%Y%m%d` as that date |
| DateParser.YearThenLiteralFails | Health_system.py:100 | a format that starts `%Y` and then a separator fails on text without that separator right after four characters |
| DateParser.DayThenLiteralFails | Health_system.py:100 | a format that starts `%d` and then a separator fails on text with no such separator at index 1 or 2 |
| DateParser.NonDigitStartFails | Health_system.py:100 | text whose first character is neither a digit nor a space matches no format that starts with a field |
| DateParser.FirstMatch | Health_system.py:98-103 | the loop's result, when there is one, is a real date |
| DateParser.FirstMatchIsEarliest | Health_system.py:98-103 | the loop returns d exactly when some format gives d and every earlier format fails |
| DateParser.FirstMatchFound | Health_system.py:98-103 | a result of the loop comes from some format, and every format before it failed |
| DateParser.EarliestIsFirstMatch | Health_system.py:98-103 | the first format that parses decides the result |
| DateParser.AllFormatsFail | Health_system.py:98-109 | when every format fails, the loop returns nothing |
| DateParser.ParseFlex | Health_system.py:84-109 | `parse_date_flex` returns only real dates, and nothing for empty or whitespace-only text |
| DateParser.ParseFlexPicks | Health_system.py:88-103 | stripped text is read by the first of the five formats that parses it, in the listed order |
| DateParser.ParseDateFlex | Health_system.py:64-109 | the method returns the specification's date; on success the error list is unchanged; on failure exactly one message is appended, "is empty" for blank text and "is not a valid date ..." otherwise |
| DateParser.IsoFormatRoundTrip | Health_system.py:220-221 | every ISO date written to the output parses back to the same date |
| DateParser.YearFirstSlashForm | Health_system.py:92 | a date written `YYYY/MM/DD` is read back as that date, after the dash form fails |
| DateParser.DayFirstDashForm | Health_system.py:93 | a date written `DD-MM-YYYY` is read back as that date, after both year-first forms fail |
| DateParser.DayFirstSlashForm | Health_system.py:94 | a date written `DD/MM/YYYY` is read back as that date, after the three earlier forms fail |
| DateParser.CompactForm | Health_system.py:95 | a date written `YYYYMMDD` is read back as that date, after the four separated forms fail |
| DateParser.YearThenFieldFails | Health_system.py:100 | `%Y%m%d` fails on text whose fifth character is neither a digit nor a space |
| DateParser.IsoThenCharFails | Health_system.py:91-100 | `%Y-%m-%d` matches the ten characters of an ISO date and then refuses one more character as unconverted data |
| DateParser.TrailingDataRejected | Health_system.py:88-109 | an ISO date followed by any further non-whitespace character is not a date in any of the five formats |
| DateParser.OneDigitStep | Health_system.py:100 | `%m` or `%d` takes a single digit 1-9 that is not followed by another digit |
| DateParser.SpaceDigitStep | Health_system.py:100 | `%d` takes a space followed by one digit 1-9 |
| DateParser.UnpaddedForm | Health_system.py:91-100 | a year with a one-digit month and a one-digit day, `YYYY-M-D`, is read as that date |
| DateParser.SpacePaddedDayForm | Health_system.py:91-100 | a day padded with a space rather than a zero, `YYYY-MM- D`, is read as that date |
| DateParser.IsoDashExample | Health_system.py:74 | "2024-01-31" is 31 January 2024 |
| DateParser.YearFirstSlashExample | Health_system.py:75 | "2024/01/31" is 31 January 2024 |
| DateParser.DayFirstDashExample | Health_system.py:76 | "31-01-2024" is 31 January 2024 |
| DateParser.DayFirstSlashExample | Health_system.py:77 | "31/01/2024" is 31 January 2024 |
| DateParser.CompactExample | Health_system.py:78 | "20240131" is 31 January 2024 |
| DateParser.UnpaddedExample | Health_system.py:91 | "2024-1-5" is 5 January 2024 |
| DateParser.TrailingDigitExample | Health_system.py:88-109 | "2024-01-311" is rejected |
| DateParser.RejectedFormsExample | Health_system.py:84-109 | empty text, blank text and "not-a-date" are all rejected |
| Luhn.DoubledIsDigitSum | Health_system.py:56-58 | taking 9 off a doubled digit over 9 gives the sum of the decimal digits of the doubled value |
| Luhn.DigitValues | Health_system.py:47 | `[int(d) for d in number]` has one value per character, each that character's digit value |
| Luhn.LuhnValidBySplit | Health_system.py:48-61 | a digit string passes exactly when that sum is a multiple of 10 |
| Luhn.LuhnCheck | Health_system.py:33-61 | `luhn_check` returns true exactly for a non-empty all-digit string whose Luhn sum, doubling every second digit from the right, is a multiple of 10 |
| Luhn.ReversedPrefixSum | Health_system.py:50-59 | the loop over the reversed digits before the check digit sums them, doubling those at even positions of the reversed list, which equals the right-to-left weighted sum |
| Luhn.DoubledInjective | Health_system.py:56-58 | doubling with 9 taken off maps different digits to different values |
| Luhn.ChangeOneDigit | Health_system.py:52-59 | changing one digit changes the weighted sum only by the change of that digit's weight |
| Luhn.SingleDigitErrorDetected | Health_system.py:33-61 | two card numbers that differ in exactly one digit never both pass |
| Luhn.CheckDigitUnique | Health_system.py:48-61 | the digits before the check digit admit at most one passing check digit |
| Luhn.TopUp | Health_system.py:61 | the top-up digit brings a sum to a multiple of 10 |
| Luhn.CheckDigitExists | Health_system.py:48-61 | every run of digits is completed to a passing number by its top-up digit |
| Luhn.PassingExample | Health_system.py:33-61 | "1234567897" passes |
| Luhn.FailingExample | Health_system.py:38 | "1234567890", the documented input shape, fails (its sum is 43) |
| RecordValidator.PatientIdOf | Health_system.py:149-150 | the ID is the stripped "Patient ID" value when that value is non-empty, and the stripped "PatientID" value when it is empty or missing |
| RecordValidator.HealthCardRule | Health_system.py:157-166 | rule 1 adds at most one message, each exactly in its own case (missing, not digits, not ten long, Luhn failure); it adds none exactly for ten digits that pass the Luhn check |
| RecordValidator.VersionCodeRule | Health_system.py:168-176 | rule 2 adds at most one message, each exactly in its own case (missing, not two long, not letters, not upper case); it adds none exactly for two capitals A-Z |
| RecordValidator.DobRule | Health_system.py:180-189 | for a parsed birth date, rule 3 adds "in the future" exactly for a date after `today`, otherwise "less than 150 years" exactly when the age is 150 or more, and never the negative-age message |
| RecordValidator.ServiceRule | Health_system.py:193-206 | for a parsed service date, each of the three messages appears exactly when its condition holds (after `today`; before a parsed birth date; earlier than `today` minus 183 days), and at most two appear |
| RecordValidator.ServiceFlagsOnly | Health_system.py:193-206 | rule 4 adds no message other than its three |
| RecordValidator.PatientIdErrors | Health_system.py:208-210 | the ID check adds nothing exactly when the stripped ID is not blank |
| RecordValidator.DobAccepted | Health_system.py:178-189 | rule 3 adds nothing exactly when the birth date parses, is not after `today` and gives an age under 150 |
| RecordValidator.ServiceAccepted | Health_system.py:191-206 | rule 4 adds nothing exactly when the service date parses, is not after `today`, not before a parsed birth date and at most 183 days back |
| RecordValidator.AcceptedParts | Health_system.py:146-217 | a record is valid exactly when its card is ten Luhn-valid digits, its code two capitals, its birth date parses with an age under 150 and not after `today`, its service date parses, is within the last 183 days and not before the birth date, and its ID is not blank |
| RecordValidator.EarlierRulesNeverBlameId | Health_system.py:157-206 | no rule before the ID check adds the missing-ID message |
| RecordValidator.PatientIdLast | Health_system.py:208-210 | the missing-ID message is in the list exactly when the stripped ID is blank, and then it is the last message |
| RecordValidator.BlankPrimaryIdShadows | Health_system.py:149-150 | a whitespace-only "Patient ID" hides any "PatientID" value: the ID is blank and the record is refused |
| RecordValidator.NormalizedShape | Health_system.py:219-231 | a normalised record has a ten-digit Luhn-valid card, a two-capital version code and a non-blank ID, and each of its dates is the ISO form of the parsed date and parses back to it |
| RecordValidator.FieldsOfRawOf | Health_system.py:149-155 | reading a normalised record back under its labels gives its own fields |
| RecordValidator.CardReadBack | Health_system.py:151-152 | a card of digits is unchanged by the card clean-up |
| RecordValidator.IsoReadBack | Health_system.py:153-155 | an ISO date is unchanged by `strip()` |
| RecordValidator.RevalidateNormalized | Health_system.py:129-231 | validation is idempotent: a normalised record written back as a raw record validates again on the same day and normalises to itself |
| RecordValidator.CheckHealthCard | Health_system.py:157-166 | the method appends exactly rule 1's messages |
| RecordValidator.CheckVersionCode | Health_system.py:168-176 | the method appends exactly rule 2's messages |
| RecordValidator.CheckDateOfBirth | Health_system.py:178-189 | the method returns the parsed birth date and appends the parse message or rule 3's messages |
| RecordValidator.CheckServiceDate | Health_system.py:191-206 | the method returns the parsed service date and appends the parse message or rule 4's messages |
| RecordValidator.CheckParsedServiceDate | Health_system.py:193-206 | for a parsed service date, the method appends rule 4's messages in the code's order |
| RecordValidator.AppendServiceFlags | Health_system.py:195-206 | each of the three messages is appended, in order, when its condition holds |
| RecordValidator.CheckDates | Health_system.py:178-206 | rule 4's before-birth check sees the birth date only if it parsed |
| RecordValidator.CollectErrors | Health_system.py:146-210 | the list is the concatenation of the five groups' messages, in rule order |
| RecordValidator.ValidateFields | Health_system.py:146-231 | the record is valid exactly when the list is empty; the normalised record is the specification's |
| RecordValidator.ValidateRecord | Health_system.py:129-231 | `validate_record` returns the specification's messages, is valid exactly when they are empty, and normalises exactly a valid record |
| BatchProcessor.Outcomes | Health_system.py:414-417 | one outcome per input row, and outcome k is the validation of row k on `today` |
| BatchProcessor.OutcomeConsistent | Health_system.py:415 | each outcome is valid exactly without messages, and then carries a normalised record |
| BatchProcessor.ValidateOne | Health_system.py:415-417 | one step validates the row and reads its ID again |
| BatchProcessor.ProcessRecord | Health_system.py:415-422 | one iteration appends the row's result to exactly the list its outcome selects |
| BatchProcessor.ProcessBatch | Health_system.py:414-426 | the loop builds the specification's two lists in input order, and the valid and invalid counts add up to the total |
| BatchProcessor.BatchPartition | Health_system.py:424-426 | the valid count and the invalid count add up to the number of rows |
| BatchProcessor.BatchConcat | Health_system.py:414-422 | processing two batches one after the other gives the lists of the joined batch |
| BatchProcessor.RejectionsHaveErrors | Health_system.py:419-422 | with consistent outcomes, every entry of the error report carries at least one message |
| BatchProcessor.OutcomesConsistent | Health_system.py:414-415 | every outcome of a batch is consistent |
| BatchProcessor.BatchRejectionsHaveErrors | Health_system.py:414-422 | for any batch, every entry of the error report carries at least one message |

## Left out

- PDF extraction (`extract_records_from_pdf`, Health_system.py:238-297): it is I/O through pdfplumber. The model starts from the extracted rows.
- The output writers (Health_system.py:304-356): they are file I/O. This includes the `<MISSING_PATIENT_ID>` placeholder of the error report.
- Argument parsing, console messages and exit codes in `main` (Health_system.py:373-405, 428-443): these are I/O.
- `date.today()` (Health_system.py:408): it is a clock read. `today` is a parameter.
- RecordValidator.ValidateRecord: requires `today` to be later than day 183 of year 1. For earlier dates, `today - timedelta(days=183)` raises `OverflowError` in the program; that exception is not modelled. The same precondition is on the methods and lemmas that reach rule 4, and on BatchProcessor.ProcessBatch.
- Text: `isdigit`, `isalpha` and `isupper` are modelled on ASCII only. Unicode digits and letters that Python also accepts are not modelled; Python's whitespace set for `strip()` is modelled in full. Two consequences are therefore not modelled:
  - `strptime`'s `\d` also matches non-ASCII decimal digits (Health_system.py:100), so the program accepts dates that the model refuses.
  - A character for which `isdigit()` is true but which is not a decimal digit, such as '²', passes the digits-only check of rule 1 (Health_system.py:160). `int(d)` at Health_system.py:47 then raises `ValueError` out of `validate_record`. The model has no such exception.
- DateParser.Strptime: models the regular expressions `strptime` builds for `%Y`, `%m` and `%d` and its "unconverted data remains" check. It does not model case-insensitive matching or other directives, which the five formats do not use.
- Luhn.LuhnCheck: the explicit reversed list is not built. The loop reads the digits before the check digit from the right end, which visits them in the same order.
- Integer widths do not arise: Python integers are unbounded, as Dafny's are.

