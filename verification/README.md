# LoanStats amortization engine in Dafny

This project models the loan calculator of LoanStats: `LoanSummaryComponent.calculate`
and its helpers, plus the record that `LoanService.saveLoan` posts to the server.

`calculate` runs these steps in order:

- It validates a loan whose inputs are loosely formatted strings ("$126,000.00",
  "2.99%", "30 years").
- It derives the monthly payment from the term with the annuity formula, or takes
  the stated payment.
- It refuses a payment that cannot cover the first month's interest.
- It runs the month-by-month loop. The final payment is clamped, and the loop is
  capped at 1200 months.
- It writes back the rounded table, the rounded total interest and a "Loan paid off
  in X years and Y months." message.

Every failure leaves the same shape: an `Error: ...` message, an empty table and no
interest.

Modules, one per concern:

- `Numbers`: `Math.round(x * 100) / 100`, `Math.max(0, x)` and `**`, over exact reals.
- `Optional`: an absent value (`NaN` or `null`).
- `Text`: the JavaScript string built-ins the engine relies on. These
  are the character-class `replace`, `parseFloat`, `parseInt`, number-to-text
  interpolation and `toFixed(2)`.
- `LoanTypes`: the `Loan` and `LoanMonth` records.
- `Parsers`: `parseCurrency`, `parseRate` and `parseInteger`.
- `Validation`: `validateLoan`.
- `Payment`: the monthly rate, the annuity payment, and a proof that the payment
  retires the loan.
- `Amortization`: the while loop, as a recursion on the month counter. Each pass
  yields an unrounded `Period`, and `Row` rounds it into a `LoanMonth`.
- `Payoff`: the payoff message and a reader for it.
- `LoanSummary`: `calculate` itself. The component mutates the loan it is given;
  here `Calculate` returns the updated loan.
- `SummaryProperties`: what a calculation guarantees.
- `LoanService`: the service's own copies of the parsers and the save record.

A missing optional field is the empty string, because both are falsy in JavaScript
and the code treats them alike.

The component's test suite expects a straight-line payment of 277.78 for rate "0"
(src/app/loan-summary/loan-summary.component.spec.ts:129-151). The code has no such
branch and rejects any rate at or below 0 in `validateLoan`. The model follows the
code: a zero rate gives "Error: Interest rate must be greater than 0".

## Model

| member | source | states |
|---|---|---|
| Numbers.Max0 | src/app/loan-summary/loan-summary.component.ts:73 | `Math.max(0, x)` is never negative, is at least `x`, and is `x` or 0 |
| Numbers.Round2 | src/app/loan-summary/loan-summary.component.ts:77-80 | rounding to cents gives a whole number of cents within half a cent of the input, ties going up |
| Numbers.Round2Unique | src/app/loan-summary/loan-summary.component.ts:124 | any whole number of cents within half a cent (ties up) of `x` is the rounding of `x` |
| Numbers.Round2OfCents | src/app/loan-summary/loan-summary.component.ts:124 | rounding an amount that is already whole cents leaves it unchanged |
| Numbers.Round2Monotonic | src/app/loan-summary/loan-summary.component.ts:77-80 | rounding to cents preserves order |
| Numbers.Round2NonNegative | src/app/loan-summary/loan-summary.component.ts:80 | a non-negative amount rounds to a non-negative amount |
| Numbers.Pow | src/app/loan-summary/loan-summary.component.ts:35 | a power of a positive base is positive |
| Numbers.PowAboveOne | src/app/loan-summary/loan-summary.component.ts:35 | `(1 + r) ** n` exceeds 1 for positive `r` and `n`, so the annuity denominator is positive |
| Text.IsSpace | src/app/loan-summary/loan-summary.component.ts:122 | the `\s` class matches no digit, dot or sign, so it never damages a number |
| Text.Remove | src/app/loan-summary/loan-summary.component.ts:122 | a global character-class `replace` leaves none of the removed characters and never lengthens the string |
| Text.RemoveAppend | src/app/loan-summary/loan-summary.component.ts:122 | removing characters distributes over concatenation |
| Text.LeadingDigits | src/app/loan-summary/loan-summary.component.ts:151 | the result is the longest all-digit prefix |
| Text.ParseFloat | src/app/loan-summary/loan-summary.component.ts:123 | text starting with a digit reads as its unsigned number; text that starts with no digit, sign or dot is `NaN` |
| Text.ParseUnsigned | src/app/loan-summary/loan-summary.component.ts:123 | text starting with a digit reads within 1 of its integer part; text starting with neither a digit nor a dot is `NaN` |
| Text.ParseLeadingInt | src/app/loan-summary/loan-summary.component.ts:151 | `parseInt` is `NaN` exactly when the text does not start with a digit |
| Text.NatToString | src/app/loan-summary/loan-summary.component.ts:102-107 | a count is rendered as decimal digits with no leading zero, whose value is the count |
| Text.CentsText | src/app/loan-summary/loan-summary.component.ts:36 | a count of hundredths is rendered as digits, a dot and exactly two decimals |
| Text.ToFixed2 | src/app/loan-summary/loan-summary.component.ts:36 | `toFixed(2)` text starts with a digit for a non-negative amount and with `-` for a negative one |
| Text.ParseFloatCentsText | src/app/loan-summary/loan-summary.component.ts:36-38 | `parseFloat` reads a two-decimal rendering back as exactly its value |
| Parsers.CurrencyJunk | src/app/loan-summary/loan-summary.component.ts:122 | the class `[$,\s]` matches no digit, dot or sign |
| Parsers.RateJunk | src/app/loan-summary/loan-summary.component.ts:134 | the class `[%\s]` matches no digit, dot or sign |
| Parsers.NotNumeric | src/app/loan-summary/loan-summary.component.ts:150 | the class `[^\d.]` drops everything the other two classes drop, and signs too, and keeps digits and dots |
| Parsers.ParseCurrency | src/app/loan-summary/loan-summary.component.ts:119-125 | empty text and unparsable text give 0; otherwise the result is the leading number rounded to the nearest cent; the result is always whole cents |
| Parsers.ParseRate | src/app/loan-summary/loan-summary.component.ts:131-141 | empty or unparsable text gives 0; a value above 1 is kept; any other value is multiplied by 100 |
| Parsers.ParseInteger | src/app/loan-summary/loan-summary.component.ts:147-153 | the result is never negative; it is 0 for empty text and for text whose digits-and-dots remainder does not start with a digit |
| Parsers.ParseIntegerOfNumeral | src/app/loan-summary/loan-summary.component.ts:147-153 | a numeral followed by text with no digit before its first dot ("30 years", "30.0") reads as the numeral's value |
| Parsers.CentsTextClean | src/app/loan-summary/loan-summary.component.ts:122 | two-decimal text contains no character the currency or rate parser drops |
| Parsers.ParseCurrencyOfCentsText | src/app/loan-summary/loan-summary.component.ts:119-125 | two-decimal text of `k` hundredths parses as `k / 100` |
| Parsers.ParseCurrencyOfToFixed2 | src/app/loan-summary/loan-summary.component.ts:36-38 | the `toFixed(2)` text written back for a non-negative payment parses as that payment rounded to cents |
| Parsers.ParseRateOfToFixed2 | src/app/loan-summary/loan-summary.component.ts:131-141 | a two-decimal rate reads back as itself when above 1 and scaled by 100 otherwise |
| Parsers.ParseCurrencyOfZero | src/app/loan-summary/loan-summary.component.ts:52 | the fallback text "0" for a missing extra payment reads as 0 |
| Validation.ValidateLoan | src/app/loan-summary/loan-summary.component.ts:158-183 | no error exactly when every check passes; each message is returned exactly when its check is the first in order to fail |
| Payment.MonthlyRate | src/app/loan-summary/loan-summary.component.ts:28 | the monthly rate times 1200 is the annual percentage |
| Payment.CoversSmaller | src/app/loan-summary/loan-summary.component.ts:42-43 | a payment that covers the interest on a balance covers it on any smaller balance |
| Payment.AnnuityPayment | src/app/loan-summary/loan-summary.component.ts:35 | for a positive principal, the derived payment is positive and exceeds the first month's interest |
| Payment.RegularBalanceClosedForm | src/app/loan-summary/loan-summary.component.ts:35 | `k` regular months give the closed-form balance `B q - pay (q - 1) / r` with `q = (1 + r) ** k`, stated multiplied by `r` |
| Payment.AnnuityIdentity | src/app/loan-summary/loan-summary.component.ts:35 | the payment grown over the term equals the principal's growth: `pay * (q - 1) == P * r * q` |
| Payment.AnnuityRetiresLoan | src/app/loan-summary/loan-summary.component.ts:35 | the term's number of regular months at the derived payment leave exactly nothing owing |
| Amortization.Step | src/app/loan-summary/loan-summary.component.ts:63-79 | a month opens at the balance, closes at the balance minus what went to principal, never below 0, and carries the extra payment or 0 |
| Amortization.StepArithmetic | src/app/loan-summary/loan-summary.component.ts:63-73 | interest is charged on the opening balance; a clamped month pays exactly the balance, ends at 0 and zeroes the extra; any other month ends at balance plus interest minus payment and extra |
| Amortization.StepPaysDown | src/app/loan-summary/loan-summary.component.ts:61-73 | with the payment check passed and no negative extra, a month pays something to principal and the balance strictly falls |
| Amortization.Amortize | src/app/loan-summary/loan-summary.component.ts:54-87 | the counter ends one past the last month and at most at 1201; months are emitted exactly while the balance is positive and the counter is within the cap; the first opens at the principal; the accumulated interest is the sum over the emitted months |
| Amortization.ChainedCons | src/app/loan-summary/loan-summary.component.ts:82-85 | prepending a month that closes where the next one opens keeps the schedule chained |
| Amortization.AmortizeChained | src/app/loan-summary/loan-summary.component.ts:55-85 | months are numbered consecutively; each month's closing balance is non-negative and equals the next month's opening balance, which is positive |
| Amortization.AmortizeClears | src/app/loan-summary/loan-summary.component.ts:61-73 | a loop that stops before the cap ends with nothing owing |
| Amortization.AmortizeBalanceFalls | src/app/loan-summary/loan-summary.component.ts:61-73 | with the payment check passed and no negative extra, every month pays principal down |
| Amortization.NeverClears | src/app/loan-summary/loan-summary.component.ts:61-73 | once a month's payment plus extra does not beat its interest, the loop runs on into the 1200-month cap |
| Amortization.ClearedRunFalls | src/app/loan-summary/loan-summary.component.ts:61-94 | a loop that stops before the cap paid principal down every month, whatever the sign of the extra payment |
| Amortization.PaysDownCons | src/app/loan-summary/loan-summary.component.ts:82 | prepending a month that pays down to a schedule that pays down keeps it paying down |
| Amortization.Row | src/app/loan-summary/loan-summary.component.ts:75-81 | a table row keeps the month number; its opening balance, interest, payment towards principal and closing balance are each whole cents within half a cent of the unrounded amount |
| Amortization.ClampedRow | src/app/loan-summary/loan-summary.component.ts:68-80 | the row of a clamped final month pays towards principal exactly its opening balance and closes at 0.00 |
| Amortization.Rows | src/app/loan-summary/loan-summary.component.ts:82 | the table has one row per month, in order |
| Payoff.Count | src/app/loan-summary/loan-summary.component.ts:102-107 | "n unit" takes the plural "s" exactly when `n` is not 1 |
| Payoff.PayoffMessage | src/app/loan-summary/loan-summary.component.ts:96-108 | the message starts "Loan paid off in " and ends with "." |
| Payoff.ReadCountOf | src/app/loan-summary/loan-summary.component.ts:102-107 | a rendered count reads back as its value and the text after it |
| Payoff.DecodeYearsAndMonths | src/app/loan-summary/loan-summary.component.ts:104 | the years-and-months form reads back as 12 times the years plus the months |
| Payoff.DecodeWholeYears | src/app/loan-summary/loan-summary.component.ts:102 | the whole-years form, with no months clause, reads back as 12 times the years |
| Payoff.DecodeMonths | src/app/loan-summary/loan-summary.component.ts:107 | the months-only form below a year reads back as the months |
| Payoff.PayoffMessageRoundTrip | src/app/loan-summary/loan-summary.component.ts:96-108 | reading the message back gives the month count it was built from, across all three forms |
| Payoff.PayoffMessageInjective | src/app/loan-summary/loan-summary.component.ts:96-108 | different month counts never share a message |
| LoanSummary.Fail | src/app/loan-summary/loan-summary.component.ts:20-23 | a failure sets the message, empties the table, zeroes the interest and changes nothing else |
| LoanSummary.ExtraPayment | src/app/loan-summary/loan-summary.component.ts:52 | the extra payment is whole cents, and 0 when the field is missing |
| LoanSummary.MonthlyPayment | src/app/loan-summary/loan-summary.component.ts:31-39 | the payment of a valid loan is positive; with a term it covers the first month's interest; without one it is the parsed stated payment; SummaryProperties.TermPaymentRetires pins the term payment's value |
| LoanSummary.Covers | src/app/loan-summary/loan-summary.component.ts:42-43 | the payment check; a loan with a term always passes it |
| LoanSummary.Schedule | src/app/loan-summary/loan-summary.component.ts:50-61 | the loop of a valid loan emits at least one month, opens at the parsed principal, and stops with the counter one past its last month and at most 1201 |
| LoanSummary.WithPayment | src/app/loan-summary/loan-summary.component.ts:36 | only the monthly payment field is rewritten, and only when a term is given |
| LoanSummary.Calculate | src/app/loan-summary/loan-summary.component.ts:17-113 | a validation error yields "Error: " plus its message in the failure shape; every failure has an empty table and no interest; a success has between 1 and 1199 rows; only the result fields and, with a term, the payment change |
| LoanSummary.CalculateValid | src/app/loan-summary/loan-summary.component.ts:41-48 | a payment at or below the first month's interest gives the "too low" error; otherwise the result is the loop's summary |
| LoanSummary.Summarize | src/app/loan-summary/loan-summary.component.ts:89-112 | past the cap the result is the limit error; otherwise the rounded table, the rounded interest and the payoff message for the number of months |
| SummaryProperties.CalculateOfValid | src/app/loan-summary/loan-summary.component.ts:17-113 | a valid loan whose payment covers the interest gets the summary of its loop |
| SummaryProperties.SummarizeFails | src/app/loan-summary/loan-summary.component.ts:89-94 | the summary fails exactly when the counter passed the cap |
| SummaryProperties.CapSupersedesPayoff | src/app/loan-summary/loan-summary.component.ts:59-94 | after the payment check, the calculation fails exactly when the loop emitted 1200 months, even if the last of them cleared the balance, and then it has the limit error's shape |
| SummaryProperties.TermLoanPayment | src/app/loan-summary/loan-summary.component.ts:31-48 | a loan with a term never gets the "too low" error; its payment is written back as `toFixed(2)` text that reads back as the payment rounded to cents |
| SummaryProperties.TermPaymentRetires | src/app/loan-summary/loan-summary.component.ts:28-35 | with a term of T years, the derived payment leaves exactly nothing owing after 12·T regular months at the monthly rate |
| SummaryProperties.InvalidFails | src/app/loan-summary/loan-summary.component.ts:18-24 | an invalid loan always fails |
| SummaryProperties.TooLowFails | src/app/loan-summary/loan-summary.component.ts:42-48 | a payment at or below the first month's interest always fails |
| SummaryProperties.SuccessIsSummary | src/app/loan-summary/loan-summary.component.ts:17-113 | a calculation that did not fail passed validation and the payment check, stopped before the cap, and is the loop's summary |
| SummaryProperties.RowsPaidOff | src/app/loan-summary/loan-summary.component.ts:75-82 | rounding a chained schedule that ends at 0 gives a paid-off table, whose last month pays towards principal exactly its opening balance |
| SummaryProperties.PaidOffRows | src/app/loan-summary/loan-summary.component.ts:54-87 | a loop from month 1 that stopped before the cap gives a paid-off table opening at the rounded principal, with interest equal to the sum over the months |
| SummaryProperties.SuccessfulCalculation | src/app/loan-summary/loan-summary.component.ts:54-112 | a success has rows numbered 1 to n, each closing where the next opens, never negative, ending at 0 with a last payment towards principal equal to its opening balance; fewer than 1200 rows opening at the parsed principal; total interest is the rounded sum of the unrounded monthly interest; the message is built from n |
| SummaryProperties.RowsNeverRise | src/app/loan-summary/loan-summary.component.ts:77-80 | when every month pays down, no row closes above its opening balance |
| SummaryProperties.BalanceFalls | src/app/loan-summary/loan-summary.component.ts:61-94 | a successful calculation paid principal down every month, whatever the extra payment, and no table row ever closes above its opening |
| SummaryProperties.CalculateIgnoresOutputs | src/app/loan-summary/loan-summary.component.ts:17-113 | the result depends only on the inputs; any message, table or interest already on the loan is overwritten |
| SummaryProperties.TermDecidesSchedule | src/app/loan-summary/loan-summary.component.ts:31-36 | with a term, the payment and the loop ignore the stated monthly payment |
| SummaryProperties.RecalculateIsStable | src/app/loan-summary/loan-summary.component.ts:17-113 | calculating again from a calculation's result gives the same result, unless a term's payment rounds to 0.00 |
| LoanService.ParseCurrency | src/app/loan.service.ts:31-36 | the service's `parseCurrency` equals the calculation's on every input |
| LoanService.ParseRate | src/app/loan.service.ts:38-44 | the service's `parseRate` equals the calculation's on every input |
| LoanService.ParseInteger | src/app/loan.service.ts:46-51 | the service's `parseInteger` equals the calculation's on every input |
| LoanService.SaveRecord | src/app/loan.service.ts:18-26 | the record keeps the name and carries the parsed principal and rate, the parsed term and payment or `null` when absent, and the extra payment the calculation uses (0 when absent) |
| LoanService.RecordAmountsAreCents | src/app/loan.service.ts:19-26 | every amount in the record is whole cents |
| LoanService.ValidIffRecordValid | src/app/loan.service.ts:19-26 | a loan passes validation exactly when its record satisfies the same rules |
| LoanService.RecordMatchesCalculation | src/app/loan.service.ts:21-25 | the record's principal, rate and extra payment are the numbers the calculation uses |
| LoanService.SavedTermPayment | src/app/loan.service.ts:24 | saving a calculated term loan stores the derived payment rounded to cents |

## Left out

- HTTP: `getAllLoans` and the `http.post` call in `saveLoan` are I/O. Only the posted record is modelled.
- The numeric `id` of a loan and the optional `monthlyPayment` field of a table row are never set by the engine, and are not modelled.
- Numbers are exact reals, not IEEE-754 doubles. Rounding drift and the test suite's exact scenario figures (such as 369.12) are not modelled or proved.
- SummaryProperties.TermLoanPayment: holds over exact reals only, and so do `SummaryProperties.TermPaymentCovers`, `SummaryProperties.TermPaymentRetires`, the term clause of `LoanSummary.MonthlyPayment`'s contract and the `ensures` of `LoanSummary.Covers`. In IEEE-754 doubles, the denominator `1 - (1 + monRate) ** -termMon` rounds to exactly 1 once `(1 + monRate) ** termMon` passes about 2^54, and the payment equals the first month's interest. Rate "100" with term "40" (480 months at 1/12 a month) then gets the "too low" error, which the model says a term loan never gets.
- `parseFloat` forms with exponents or `Infinity` are not modelled. The modelled form is an optional sign, digits, and an optional dot with more digits; at least one digit is needed. `parseInt` needs no more, since its input holds only digits and dots.
- `toFixed` switches to exponent notation at 1e21 and above; `Text.ToFixed2` always writes plain digits.
- The loop keeps `oldPrincipal` and `newPrincipal` apart, but they are equal at every loop head, so the model keeps one balance.
- `Math.round` of a negative half-way amount rounds up, and `Numbers.Round2` does the same (floor of x + 1/2).
- Parsers.ParseCurrencyOfToFixed2: stated only for non-negative amounts. A negative written-back payment cannot arise, since every valid loan's payment is positive.
- SummaryProperties.RecalculateIsStable: requires that a term's payment does not round to 0.00. A payment that small is written back as "0.00", and the second run then fails the monthly payment check.
- The payoff message's decoder (`Payoff.DecodePayoff`) is a model-side reader. It exists only to state that the message is faithful, and has no source counterpart.
