# Verified model of the advisory platform's core

A Dafny model of the parts of this repository whose promises are hardest to keep, with proofs of
those promises. `dafny verify dfyconfig.toml` checks everything.

The operations that update rows are classes with methods. Each method is proved to answer and to
leave the state as a step function says (`Verdict` and `Next`), and the theorems are about every run
of those steps. Database rows are sequences or maps, the Event Ledger is an append-only sequence,
and each exported function is one step. Clocks, identities, the middleware chain, the compliance
scanner, SHA-256 and the time-zone database come in as parameters about which nothing is assumed.

| file | models |
|---|---|
| Json, JsonReader | the canonical JSON text every content hash rests on, and a reader of the printed texts that shows it is canonical |
| Powers, Cost | net present value, the bisection solver, the annuity formula, factor rates, over exact reals |
| Money, Billing, Credit, CreditRuns, Balances, BillingDesk | payments, refunds, the credit chain, balances and upgrade quotes |
| Base64Url | the portal's hand-written base64url conversions |
| Templates, Clauses, Placeholders, Generate | contract templates and their reviews, the clause library, substitution, and contract generation over all three |
| Approval | the approval pipeline of a deliverable and its ledger |
| Governance | the provider board, its minutes, standing, and complaint windows |
| Registry, Settings | configuration parameters: set, stage, promote, roll back |
| Patterns, Pii | redaction of personal data and the assertion that none is left |
| Comms | delivery windows, preferences, urgent routing and the send log |
| Common, Ordering | shared types; sorting by UTF-16 code unit |

Where the code and its own comments differ, the model follows the code:

- The solver's comment promises null for all-inflow or all-outflow vectors only; it also returns null
  for a mixed vector whose rate is above 1000% or below -99.99% per period
  (`Cost.MixedVectorWithoutRate`, `Cost.LowAdvanceWithoutRate`). `Cost.AdvanceWithoutRate` gives the
  exact condition for advances.
- The money module's rule is that refunds round up; `proportionOf` toward the client rounds down
  (`Money.AThirdRoundsDown`).
- The credit chain's comment says double-crediting is impossible. No payment is ever drawn beyond its
  amount, but a refund written after a draw is set against payments already drawn.
  `CreditRuns.CoveredThroughout` gives the exact condition for every payment to cover its draws and
  refunds throughout a run, and `CreditRuns.OffersWhatIsLeftThroughout` shows that it is also the exact
  condition for the credit offered to be what is left. The total alone can be within paid without it
  (`CreditRuns.TotalWithinPaidUncovered`).
- The balance's net receipts are described as what the client has parted with; carried credit counts in
  them a second time (`Balances.CarriedCreditCountsTwice`).
- `payRefund` does not look at whether an entitlement was already paid (`CreditRuns.RefundPaidTwice`).
- A contract from a template that names no clause records the keys of every applicable clause and
  contains none of them (`Generate.RecordedButNotInserted`).
- The check before delivery is described as catching any row edited outside. It catches an edit that is
  there at delivery, not one undone after QA or the scan has looked at it
  (`Approval.EditedAroundTheChecks`); `Approval.DeliveredWasCheckedExactly` gives the exact condition.
- Reversing a blacklist is described as a reinstatement with its own rationale. Submitting the provider
  again also does it, and asks for no rationale (`Governance.LeftWithoutAReason`), and so do flagging
  and suspending. `Governance.BlacklistIsLeftExactly` lists the steps and
  `Governance.BlacklistsAreReversedForAReason` gives the exact condition for a rationale.
- A review is due after its cadence in days and blocks a day later (`Governance.OverdueADayAfterDue`).
- An approval dated before complaints on file opens a window that already stands at the threshold
  (`Governance.BackdatedApprovalIsAtThreshold`); `Governance.BelowThresholdThroughout` gives the exact
  condition for no approved provider to stand there.
- `promoteStagedChange` does not look at whether the value in force is still the one the row recorded
  (`Settings.TwoStagedOverOneDefault`, `Settings.RollbackOfPromotionExactly`).
- `nextWindowOpening` is described as the next instant of permission. It steps by whole hours from the
  instant given, so its answer is late by the minutes past the hour (`Comms.HalfPastSeven`);
  `Comms.FirstOpenStepIsTheOpeningExactly` gives the exact condition for the two to agree.

Texts are sequences of UTF-16 code units and are compared as JavaScript compares them.

## Model

| member | source | states |
|---|---|---|
| JsonReader.CanonicalJsonIsCanonical | packages/deliverables/src/content.ts:170-184 | Two values print the same text if and only if they are equal at every depth up to member order and undefined members, undefined elsewhere standing for null. |
| JsonReader.ReadPrinted | packages/deliverables/src/content.ts:176-184 | A reader of the texts the printer writes, given the canonical text of a value followed by anything that does not start with a digit, returns the value's normal form and leaves exactly what followed. |
| Json.EquivalentSameNormal | packages/deliverables/src/content.ts:176-184 | Values equal up to member order have one normal form and print one text. |
| Json.SameNormalEquivalent | packages/deliverables/src/content.ts:176-184 | Values with one normal form are equal up to member order, so the form forgets nothing else. |
| Json.EntriesSorted | packages/deliverables/src/content.ts:180-182 | The printed members are the defined ones, each once; of two keys the earlier is a proper prefix of the later or has the smaller UTF-16 unit at the first place they differ. |
| Json.TextOfValue | packages/deliverables/src/content.ts:176-184 | The text of every kind of value in literal units: null, true and false; whole numbers without leading zeros; strings with each unit as section 7 of RFC 8259 writes it, lower-case hexadecimal for controls and lone surrogates only; arrays and objects joined by commas. |
| Json.TextInOrder | packages/deliverables/src/content.ts:176-184 | The text of an object lists its defined members in the order of their keys, whatever order they came in. |
| Approval.DocumentText | packages/deliverables/src/content.ts:63-184 | The text that is hashed for a document: its six fields under their names, in the order of the names. |
| Approval.SectionText | packages/deliverables/src/content.ts:63-184 | The text of a section: its blocks, then its heading. |
| Approval.FieldNames | packages/deliverables/src/content.ts:63-78 | The names of the fields, letter by letter. |
| Ordering.LessExactly | packages/deliverables/src/content.ts:182 | The order of strings is the order of their first different units, a proper prefix coming first. |
| Cost.SolvePeriodicRate | packages/capital/src/cost.ts:67-101 | In exact arithmetic: null exactly when NPV has one strict sign at both ends; otherwise the midpoint of an interval that halving from -0.9999..10 reached in at most 43 passes, over which NPV changes sign, and with NPV below the scaled tolerance or a half-width below 1e-12 whenever 44 passes are allowed. |
| Cost.Halve | packages/capital/src/cost.ts:86-98 | One pass keeps the sign change and halves the width, whichever half it takes. |
| Cost.HalvedEnough | packages/capital/src/cost.ts:72-100 | After 43 halvings the half-width is below 1e-12, so the loop's last line is not reached with the default arguments. |
| Cost.BracketHoldsRoot | packages/capital/src/cost.ts:67-101 | When NPV increases, a root in the starting interval lies in every bracket the solver keeps. |
| Cost.TrueRateFindsTheRoot | packages/capital/src/cost.ts:67-101 | When NPV increases and has a root from -0.9999 to 10, the answer is within 1e-12 of it, or |NPV| there is below 1e-12 of the first flow (of 1 when that is less), with the numbers written out. |
| Cost.PaymentRepaysPrincipal | packages/capital/src/cost.ts:160-173 | The amortizing payment, or the level one at a zero rate, has the annuity value of exactly the principal. |
| Cost.NominalRateLeavesTheFee | packages/capital/src/cost.ts:164-216 | At the nominal periodic rate the NPV of a term product is minus its origination fee; with positive principal NPV is strictly increasing, so without a fee that rate is the only root. |
| Cost.FeeRaisesTheRate | packages/capital/src/cost.ts:175-216 | The true rate is above the nominal one exactly when there is a positive fee, and equal exactly when there is none. |
| Cost.FreeLoanReportsItsOwnRate | packages/capital/src/cost.ts:183-216 | A fee-free loan whose periodic rate lies from -0.9999 to 10 reports an APR, which compounds a rate within 1e-12 of its own or with |NPV| below 1e-12 of the advance. |
| Cost.TenPercentAMonth | packages/capital/src/cost.ts:183-237 | 100 advanced and 110 repaid a month later reports between 213.7% and 214% a year. |
| Cost.ToleranceIsRelative | packages/capital/src/cost.ts:61-83 | The NPV tolerance is the given part of the first flow, or of 1 when that is less. |
| Cost.FactorRepays | packages/capital/src/cost.ts:183-216 | A factor repays that many times the principal whatever the fee; the total cost is what is repaid beyond what was received, and the ratio measures it against the principal. |
| Cost.EdgePayments | packages/capital/src/cost.ts:153-173 | No period, no payment; no rate, level repayment of the principal; at -100% a period, nothing. |
| Cost.PaymentIsMissingExactly | packages/capital/src/cost.ts:153-173 | The annuity formula divides by zero exactly for a rate over no periods and for -200% a period over an even number of them; otherwise there is a payment. |
| Cost.AnnualRateIsSpread | packages/capital/src/cost.ts:20-27 | An annual rate is spread over 252 trading days, 52 or 26 weeks or 12 months. |
| Cost.ComputeCostOfCapital | packages/capital/src/cost.ts:183-216 | Proceeds, payment, totals, ratio and flows, whenever the payment is a finite number; total cost is minus the NPV at rate 0; the APR is the compounded true rate of the flows. |
| Cost.FactorRateToApr | packages/capital/src/cost.ts:218-237 | The APR of a factor-rate advance, for every factor; null exactly when something is advanced and there is no period to repay it in, or balancing it takes more than 1000% a period, or less than -99.99%, or cannot be done. |
| Cost.AdvanceWithoutRate | packages/capital/src/cost.ts:56-59 | For an advance over n periods, whatever its factor, the solver finds no rate exactly when factor * (1 - 11^-n) > 10 n, or the factor times the annuity at -99.99% is below n. The comment at these lines promises null for one-sided vectors only. |
| Cost.AdvanceOfNothing | packages/capital/src/cost.ts:56-59 | When nothing is advanced the solver always finds a rate; when there is no period to repay in, never. |
| Cost.LowAdvanceWithoutRate | packages/capital/src/cost.ts:56-59 | An advance of 100 of which half a cent comes back: a vector with both signs on which the solver returns null, its root lying below -99.99%. |
| Cost.MixedVectorWithoutRate | packages/capital/src/cost.ts:56-59 | A vector with both signs and a root at 1100% on which the solver returns null. |
| Cost.NoRateInRange | packages/capital/src/cost.ts:67-101 | For any level schedule, null means exactly that NPV is negative at the top of the interval or positive at the bottom. |
| Cost.FactorCostsMoney | packages/capital/src/cost.ts:218-237 | NPV at rate 0 is principal * (1 - factor): negative exactly when the factor exceeds 1. |
| Cost.LongerTermIsWorthMore | packages/capital/src/cost.ts:218-237 | At the same factor, lengthening the term never lowers NPV at a non-negative rate, and raises it at a positive one. |
| Cost.HigherFactorIsWorthLess | packages/capital/src/cost.ts:218-237 | Raising the factor lowers NPV at every rate. |
| Cost.TrueRateOfAdvance | packages/capital/src/cost.ts:218-237 | The true rate of an advance with factor above 1 is positive, unique, falls with the term and rises with the factor. |
| Cost.AnnualizeCompounds | packages/capital/src/cost.ts:103-111 | Compounding is never below rate times periods, and above it for a non-zero rate over two periods or more. |
| Powers.GeometricSeries | packages/capital/src/cost.ts:160-173 | Rate times annuity is one minus the last discount: the closed form the payment formula rests on. |
| Money.Sum | packages/billing/src/money.ts:138-151 | Nothing exactly when an amount or the total is not a safe integer; otherwise the sum. |
| Money.FeeAndRestMakeTheWhole | packages/billing/src/money.ts:71-100 | A percentage rounded down and the rest rounded up add to the amount exactly, and a fee is never more than its base. |
| Money.PercentageRounds | packages/billing/src/money.ts:71-100 | Toward the client a percentage is at most the exact one, away from the client at least; they differ by a cent exactly when it is not whole. |
| Common.SafeIntegers | packages/billing/src/money.ts:20-22 | Cents are whole numbers from -9007199254740991 to 9007199254740991. |
| Common.WholeDays | packages/billing/src/refunds.ts:45-48 | A day is 86 400 000 milliseconds, and the rest of one does not count. |
| Money.RefundShareRoundsDown | packages/billing/src/money.ts:61-64 | The share returned toward the client is the floor, below the exact share whenever that is not whole. The rule stated at these lines is that refunds round up. |
| Money.AThirdRoundsDown | packages/billing/src/money.ts:61-64 | A third of 100 cents returned toward the client is 33, where rounding up is 34. |
| Billing.UnearnedPrepayWithinPaid | packages/billing/src/refunds.ts:160-198 | An unearned prepay is positive, never more than what was paid, and below the exact share of the unused days by less than a cent. |
| Billing.UnearnedPrepayDueExactly | packages/billing/src/refunds.ts:160-198 | A prepay is due back exactly when an annual prepay was cancelled with days of its term unused that are worth a cent or more. |
| Credit.DrawsAreGreedy | packages/billing/src/credit.ts:145-165 | The draws are a prefix of the source list: every source before the last is emptied, none is drawn beyond what it has, and they add to the amount asked. |
| Credit.SourceHasRoom | packages/billing/src/credit.ts:36-84 | What a source offers, on top of what is drawn on its payment, is within the payment. |
| Credit.CreditMovesTheAmount | packages/billing/src/credit.ts:112-194 | A successful application lowers total credit by exactly the amount and adds that amount to both the applications and the credit_applied records of the target. |
| Credit.DrawAll | packages/billing/src/credit.ts:145-165 | After drawing a list of sources, every client's source list is the one before with each source lowered by exactly what was drawn from it, none when it was not drawn, and emptied sources gone; the client's total falls by the amount. |
| CreditRuns.NothingIsDrawnTwice | packages/billing/src/credit.ts:8-12 | In every run no payment is drawn beyond its amount. |
| CreditRuns.CreditStaysWithItsClient | packages/billing/src/credit.ts:89-194 | In every run each application draws on a payment of one engagement for another engagement of the same client. |
| CreditRuns.ForeignTargetIsRefused | packages/billing/src/credit.ts:128-131 | A target that is not the client's own answers no data, and nothing is written. |
| CreditRuns.CreditAnswers | packages/billing/src/credit.ts:113-152 | What credit answers for every request: refused without a positive countable amount or a rationale, no data for a target that is not the client's, an error when what is left cannot be counted, refused when it is too little, and the amount otherwise. |
| CreditRuns.CancellationIsRecorded | packages/billing/src/engagements.ts:258-295 | Cancelling takes a reason, sets the day on that engagement and leaves everything else. |
| CreditRuns.BillingIsRecorded | packages/billing/src/engagements.ts:327-360 | Any countable amount on an engagement in the books adds exactly that record; nothing else is written. |
| CreditRuns.RefundIsRecorded | packages/billing/src/refunds.ts:256-300 | A refund adds exactly its record when something of that trigger and amount is due; otherwise nothing is written. |
| CreditRuns.CreditRecordsMatchDraws | packages/billing/src/credit.ts:147-178 | In every run, the credit_applied records of an engagement exceed the applications to it by exactly what was recorded by hand. |
| CreditRuns.CoveredTotal | packages/billing/src/credit.ts:49-81 | When each payment covers its draws and refund offset, total drawn plus what refunds take is within what was paid. |
| CreditRuns.OfferedIsWhatIsLeft | packages/billing/src/credit.ts:49-81 | What is offered, drawn and taken by refunds never adds to less than was paid, and adds to exactly what was paid if and only if every payment is covered. |
| CreditRuns.TotalWithinPaidUncovered | packages/billing/src/credit.ts:49-81 | Of two payments of 100, the first drawn in full and 100 refunded: the total is within paid, and 100 is still offered that is not there. |
| CreditRuns.CoveredExactlyWithinRoom | packages/billing/src/credit.ts:57-70 | Payments stay covered under a refund total exactly when it is within a bound computed from the payments and draws. |
| CreditRuns.StepKeepsCoverExactly | packages/billing/src/credit.ts:36-194 | A step keeps an engagement covered exactly when the refund it writes, if any, fits that bound. |
| CreditRuns.CoveredThroughout | packages/billing/src/credit.ts:36-194 | An engagement is covered in every state of a run if and only if every refund fitted when it was written. |
| CreditRuns.OffersWhatIsLeftThroughout | packages/billing/src/credit.ts:36-194 | What an engagement offers is in every state of a run exactly what was paid less what was drawn and refunded, if and only if every refund fitted when it was written. |
| CreditRuns.RefundsFirstStaysCovered | packages/billing/src/credit.ts:54-70 | If an engagement's refunds all come before its first draw, drawn plus min(refunded, paid) is within paid, whatever dates later payments carry. |
| CreditRuns.RefundAfterDrawIsNotCovered | packages/billing/src/credit.ts:54-70 | A run that pays 100, carries it forward and then refunds it: drawn plus refunded exceeds paid. |
| CreditRuns.PaidRefundStaysDue | packages/billing/src/refunds.ts:256-275 | Paying a refund leaves the same entitlement payable again, because payment does not look at what was resolved. |
| CreditRuns.RefundPaidTwice | packages/billing/src/refunds.ts:256-275 | A run in which ten days prepaid with 100 are cancelled half-way: the 50 due is paid twice, and 100 is refunded. |
| Balances.ReceiptsCountCreditAgain | packages/billing/src/engagements.ts:436-450 | In every run, a client's net receipts over all engagements are its cash plus the credit carried or written by hand; they are what the client has parted with if and only if there was none. |
| Balances.CarriedCreditCountsTwice | packages/billing/src/engagements.ts:436-450 | A run in which 100 paid on one engagement and carried to another is 100 of cash and 200 of net receipts. |
| Balances.CreditLowersTheDebt | packages/billing/src/engagements.ts:419-450 | A credit application lowers what its target owes, down to nothing, and moves no other balance. |
| Balances.QuoteIsHonoured | packages/billing/src/credit.ts:207-253 | In every run, taking a quoted upgrade at once with the quoted credit succeeds: the new engagement owes exactly the quoted net and the rest of the credit remains. |
| Balances.QuoteAddsUp | packages/billing/src/credit.ts:235-253 | What is left to pay and the credit that can be used add to the retainer, with credit or without. |
| Balances.QuoteAnswers | packages/billing/src/credit.ts:219-235 | A quote has no data without both offers, is refused unless it moves up the ladder, and fails only where the sum cannot be counted. |
| Balances.MinimumIsMet | packages/billing/src/engagements.ts:425-450 | A balance exists for an engagement in the books and meets a minimum from exactly that amount on. |
| Balances.NewEngagementHasNoCredit | packages/billing/src/credit.ts:133-136 | Starting an engagement neither adds nor removes credit, and all of it may be applied to it. |
| BillingDesk.Desk.AvailableCredit | packages/billing/src/credit.ts:36-84 | The nested loops list exactly the specified sources, in order. |
| BillingDesk.Desk.SourcesOn | packages/billing/src/credit.ts:49-80 | One engagement's sources, with refunds set against the oldest payments first. |
| BillingDesk.Desk.TotalAvailableCredit | packages/billing/src/credit.ts:86-87 | The sum of what the sources offer; nothing exactly where the source throws, a total that is not a safe integer. |
| BillingDesk.Desk.ApplyCredit | packages/billing/src/credit.ts:112-194 | Answers and writes as the credit step of a run: refuses a bad amount, a blank rationale, a foreign target or too little credit and changes nothing; otherwise draws and records the amount. |
| BillingDesk.Desk.PayRefund | packages/billing/src/refunds.ts:256-323 | Answers and writes as the refund step of a run: only an entitlement the records show, of that trigger and amount. |
| BillingDesk.Desk.RecordBilling | packages/billing/src/engagements.ts:327-369 | Answers and writes as the recording step of a run; rows stay in query order and no payment becomes overdrawn. |
| BillingDesk.Desk.CancelEngagement | packages/billing/src/engagements.ts:258-295 | Answers and writes as the cancelling step of a run; the books stay sound. |
| Base64Url.FromBase64Url | apps/portal-api/public/encoding.js:13-22 | The loop yields the bytes the text decodes to, and fails exactly when the standard decoder would. |
| Base64Url.ToBase64Url | apps/portal-api/public/encoding.js:24-31 | The loop yields the unpadded URL-safe text of the bytes. |
| Base64Url.BytesSurviveTransport | apps/portal-api/public/encoding.js:13-31 | Decoding the encoding of any byte sequence gives it back. |
| Base64Url.EncodedIsCanonical | apps/portal-api/public/encoding.js:24-31 | The encoding has only URL-safe characters (no '+', '/' or '='), a possible length and zero trailing bits. |
| Base64Url.EncodedCharacters | apps/portal-api/public/encoding.js:24-31 | Every character of an encoding is the one section 5 of RFC 4648 gives its six bits. |
| Base64Url.BitsInOrder | apps/portal-api/public/encoding.js:24-31 | Four sextets are the bits of three bytes in order. |
| Base64Url.HyphenAndUnderscore | apps/portal-api/public/encoding.js:31 | Bytes FB EF BE are four hyphens and FF FF FF four underscores. |
| Base64Url.StandardAlphabetToo | apps/portal-api/public/encoding.js:13-15 | The decoder takes plus and slash for hyphen and underscore. |
| Base64Url.PaddingIsTaken | apps/portal-api/public/encoding.js:13-15 | An encoding with its padding decodes to its bytes. |
| Base64Url.SkippedUnits | apps/portal-api/public/encoding.js:15 | The white space the decoder skips is the five ASCII units. |
| Base64Url.LoneCharacterIsRefused | apps/portal-api/public/encoding.js:13-15 | A lone character followed by white space up to four units is refused. |
| Base64Url.TextSurvivesExactlyWhenCanonical | apps/portal-api/public/encoding.js:13-31 | A text survives decoding and encoding if and only if it is canonical in that sense (sections 3.2 and 5 of RFC 4648). |
| Templates.ReachableVersions | packages/contracts/src/templates.ts:110-174 | In every run, the versions of a key are exactly 1 to n, each once, only n is not superseded, and version 1 is material. |
| Templates.GenerableExactly | packages/contracts/src/templates.ts:278-326 | A version is generable exactly when some reviewed version at or before it has only editorial versions after it up to the one asked. |
| Templates.GenerableCarriesReview | packages/contracts/src/templates.ts:270-326 | The query agrees with the rule read forwards: reviewed itself, or an editorial change to a version that may generate. |
| Templates.UnseenBlocks | packages/contracts/src/templates.ts:278-326 | An unreviewed material change blocks its version and every later one. |
| Templates.NothingIsLaundered | packages/contracts/src/templates.ts:270-326 | From a stored material version without review, no run of publishes, and of reviews of earlier versions, makes it or a later version generable. |
| Templates.MaterialWaitsForReview | packages/contracts/src/templates.ts:110-326 | After a publication asked for as material, no run without a review of its version or a later one makes it or a later version generable. |
| Templates.ReviewOpensGeneration | packages/contracts/src/templates.ts:257-326 | After any run, a version that is reviewed may generate, with that review as its authority. |
| Templates.EditorialChangesKeepTheReview | packages/contracts/src/templates.ts:257-326 | Over any run without another material change of its key, every version from a reviewed one on may generate. |
| Templates.PublishedAsRequested | packages/contracts/src/templates.ts:110-174 | A publication is accepted exactly when it has sections and is material, or editorial with a reason over an earlier version; it adds the next version with the title, sections and kind asked for. |
| Templates.ReviewedExactly | packages/contracts/src/templates.ts:194-268 | A review is recorded exactly when a human of level 3 or above names counsel and a document for a published version. |
| Templates.Desk.PublishTemplate | packages/contracts/src/templates.ts:110-174 | Answers and writes as the publishing step of a run: supersedes the current version, numbers the next, and keeps the library valid, so exactly one version of a key is in use. |
| Templates.Desk.ReviewTemplate | packages/contracts/src/templates.ts:194-268 | Answers and writes as the reviewing step of a run: a senior human, a reference and a published version, or nothing is recorded. |
| Clauses.PublishingKeepsOneLive | packages/contracts/src/clauses.ts:71-125 | However clauses are published, each key and jurisdiction has at most one live row. |
| Clauses.Desk.PublishClause | packages/contracts/src/clauses.ts:71-125 | Publishes or refuses as the specified step, and keeps one live row per key and jurisdiction. |
| Clauses.ApplicableClauses | packages/contracts/src/clauses.ts:145-183 | Each key with an in-scope clause exactly once, in key order, the state's clause whenever an in-scope one exists. |
| Clauses.ChosenInItsScope | packages/contracts/src/clauses.ts:145-183 | A clause written for some tiers, channels or a state is chosen only there, and never once superseded. |
| Clauses.PublishedAsRequested | packages/contracts/src/clauses.ts:71-125 | A publication with text and citation supersedes the live row of its key and jurisdiction and adds the next version as it was asked for; any other is refused. |
| Clauses.FirstPublication | packages/contracts/src/clauses.ts:71-125 | The first publication of a key and jurisdiction becomes its version 1, in force, as it was asked for. |
| Clauses.CandidateExactly | packages/contracts/src/clauses.ts:145-183 | Empty tiers or channels restrict nothing; a named tier or channel is needed where the clause names some. |
| Clauses.RowOrderIsIrrelevant | packages/contracts/src/clauses.ts:145-183 | Any two answers over reorderings of the rows are equal. |
| Generate.GenerateContract | packages/contracts/src/generate.ts:101-297 | A contract is recorded if and only if the gate clears, the current template is at a reviewed version, every named clause is in force, and the contract made of them passes the scan with its obligations met; it is that contract. |
| Generate.OneContract | packages/contracts/src/generate.ts:133-182 | The template in use, the clauses in force and the request leave exactly one contract. |
| Generate.InsertedForTheRequest | packages/contracts/src/generate.ts:133-182 | Every inserted clause is in force for the request's own tier and channel in its state, with its text substituted. |
| Generate.AttachedExactly | packages/contracts/src/generate.ts:225-233 | A disclosure is attached exactly when the state requires it and some section of the template takes disclosures in. |
| Generate.ReviewedTemplate | packages/contracts/src/generate.ts:116-130 | The current template, refused exactly when counsel's review does not reach its version. |
| Generate.ResolveClauses | packages/contracts/src/generate.ts:133-153 | The clauses in force, refused exactly when a named key has none. |
| Generate.ClauseKeysAreTheInsertedClauses | packages/contracts/src/generate.ts:133-141 | The recorded clause keys are the inserted clauses if and only if the template names a clause or none applies: naming none records every applicable key and inserts none. |
| Generate.RecordedButNotInserted | packages/contracts/src/generate.ts:133-141 | A template naming no clause, and one clause for everyone: its key is recorded and its text is nowhere in the contract. |
| Generate.UnresolvedInContract | packages/contracts/src/generate.ts:309-328 | A contract from clean bodies and clauses and brace-free values still carries exactly the placeholders no value was supplied for in its bodies and inserted clauses, and those of its title, headings and disclosures. |
| Placeholders.SubstituteLeavesTheUnsupplied | packages/contracts/src/generate.ts:299-307 | For a template whose braces are all in placeholders and brace-free values: what is left is exactly the placeholders not supplied, and substituting again changes nothing. |
| Placeholders.NothingSupplied | packages/contracts/src/generate.ts:299-307 | Substituting nothing leaves any text as it is. |
| Placeholders.ValueCanCarryAPlaceholder | packages/contracts/src/generate.ts:299-307 | A value with braces can put a placeholder into the text that a second substitution would fill. |
| Placeholders.StrayBracesCanMakeAPlaceholder | packages/contracts/src/generate.ts:299-307 | Stray braces around a placeholder can make a new one out of a brace-free value. |
| Placeholders.JoinedPlaceholders | packages/contracts/src/generate.ts:309-328 | Joining parts by blank lines neither makes nor breaks a placeholder. |
| Placeholders.BracesAndBlankLine | packages/contracts/src/generate.ts:299-319 | Placeholders are names in double braces, and parts are joined by an empty line. |
| Placeholders.UnresolvedPlaceholders | packages/contracts/src/generate.ts:321-328 | Exactly the names still in the text, each once, sorted. |
| Approval.QaIssues | packages/deliverables/src/approval.ts:205-237 | The issues found are exactly those the document has; none exactly when it is well shaped. |
| Approval.LedgerReplaysToState | packages/deliverables/src/approval.ts:239-526 | In every run, the events of each deliverable replay in the allowed order to its status, hash and the person who reviewed it. |
| Approval.OnlyApprovedWorkIsDelivered | packages/deliverables/src/approval.ts:473-526 | In every run, the events of a deliverable before its delivery are exactly a draft, a QA pass, a clean scan and a human's approval, with the delivered hash in the draft and the approval. |
| Approval.CleanWorkIsDelivered | packages/deliverables/src/approval.ts:138-526 | A well-shaped document of a registered template that its scanner clears and a human approves is delivered, whether or not a review was asked for. |
| Approval.BlockIsRecorded | packages/deliverables/src/approval.ts:320-353 | A scan that blocks is refused, leaves the row blocked and records the block. |
| Approval.BlockIsTerminal | packages/deliverables/src/approval.ts:283-286 | In every run from a blocked row the only events it has are rejections, and every delivery of it is refused. |
| Approval.ReviewIsAskedOnce | packages/deliverables/src/approval.ts:360-391 | Asking for a review of scanned work puts it before a human, once, and changes nothing else. |
| Approval.UnknownIsNoData | packages/deliverables/src/approval.ts:138-526 | What is not there answers no data, what is not ready is refused, only a changed hash or the scanner fails, and another service's answer is passed on. |
| Approval.DateForm | packages/deliverables/src/approval.ts:205-237 | A date is four digits, two and two with hyphens between. |
| Approval.StepsMoveForward | packages/deliverables/src/approval.ts:239-526 | Every step but a rejection moves a deliverable strictly forward or leaves it; blocked, rejected and delivered are never left except for rejected. |
| Approval.EventsHappenOnce | packages/deliverables/src/approval.ts:239-526 | In every run the events of a deliverable other than rejections rise strictly in rank, so none happens twice. |
| Approval.DeliversWhatWasDrafted | packages/deliverables/src/approval.ts:497-504 | Whatever edits the row suffered, what is delivered is the drafted document up to what the canonical form ignores, or SHA-256 has collided. |
| Approval.DeliveredWasCheckedExactly | packages/deliverables/src/approval.ts:239-526 | In every run, a row passes QA and then a scan before it is delivered, and what each of them looked at has the hash of what is delivered if and only if the row was intact when it looked. |
| Approval.UneditedWasChecked | packages/deliverables/src/approval.ts:239-526 | In every run that does not edit the row from outside, what is delivered is well shaped and was cleared by the scanner of its scan. |
| Approval.IntactAtQaIsWellShaped | packages/deliverables/src/approval.ts:239-526 | Whatever the edits, what is delivered from a row that was intact at QA is well shaped, or SHA-256 has collided. |
| Approval.EditedAroundTheChecks | packages/deliverables/src/approval.ts:497-504 | A run that swaps a document neither QA nor the scan passes for one they do, puts it back before approval, and delivers it. |
| Approval.EditStopsDelivery | packages/deliverables/src/approval.ts:497-504 | Once an approved row holds content with another hash, no run that does not edit it again delivers it: every delivery fails, or is refused after a rejection. |
| Approval.EditingBackExactly | packages/deliverables/src/approval.ts:497-504 | A later edit lets it be delivered again exactly when the new content has the approved hash. |
| Approval.VersionsAreConsecutive | packages/deliverables/src/approval.ts:153-170 | In every run a client's versions of a template are 1, 2, 3 and so on. |
| Approval.Pipeline.DraftNew | packages/deliverables/src/approval.ts:138-190 | Answers and acts as the drafting step of a run: a known client and template, the next version, the hash of the document in row and ledger. |
| Approval.Pipeline.RunQaCheck | packages/deliverables/src/approval.ts:239-275 | Answers and acts as the QA step of a run: only a well-shaped draft passes. |
| Approval.Pipeline.RunComplianceScan | packages/deliverables/src/approval.ts:289-356 | Answers and acts as the scan step of a run: only after QA, on the stored content; a failed scan changes nothing, a block is recorded and answered as a refusal. |
| Approval.Pipeline.RequestHumanReview | packages/deliverables/src/approval.ts:360-391 | Answers and acts as the review-request step of a run, which leaves no deliverable event. |
| Approval.Pipeline.Approve | packages/deliverables/src/approval.ts:400-441 | Answers and acts as the approval step of a run: only a human, only after a clean scan. |
| Approval.Pipeline.Reject | packages/deliverables/src/approval.ts:443-467 | Answers and acts as the rejection step of a run, from any status. |
| Approval.Pipeline.Deliver | packages/deliverables/src/approval.ts:481-526 | Answers and acts as the delivery step of a run: only an approved row whose content still has the recorded hash. |
| Governance.MinutesTellTheStatus | packages/governance/src/board.ts:76-111 | In every run, each provider's decisions chain from none to its present status, none approves out of a blacklist, and no first approval lacks a stated rationale. |
| Governance.BlacklistIsLeftFirst | packages/governance/src/board.ts:380-390 | Between a blacklisting and a later approval there is a decision that takes the provider off the blacklist, to a status other than approved. |
| Governance.BlacklistIsLeftExactly | packages/governance/src/board.ts:122-151 | A step takes a provider off the blacklist if and only if it submits it again, with or without a rationale, or flags, suspends or reinstates it with one. |
| Governance.BlacklistsAreReversedForAReason | packages/governance/src/board.ts:171-173 | In a run every decision out of a blacklist states a rationale if and only if no blacklisted provider was submitted again without one. |
| Governance.LeftWithoutAReason | packages/governance/src/board.ts:171-173 | A run that blacklists a provider, submits it again with a blank rationale, and approves it. |
| Governance.ApprovalsAreSound | packages/governance/src/board.ts:186-255 | In every run no cadence exceeds 90 days, and an approved provider is in V1 scope with a review date its complaint window starts at. |
| Governance.ApprovedWhereAllowed | packages/governance/src/board.ts:186-255 | On the day of its approval a provider is recommendable in exactly the states the terms allow, unless they set a negative cadence. |
| Governance.RecommendableAnywhere | packages/governance/src/standing.ts:73-162 | Without a state, or with an empty one, being approved and not overdue is enough. |
| Governance.AnswersInOrder | packages/governance/src/board.ts:122-365 | What each decision answers: the four refusals of an approval with 90 days as the longest cadence, and no data for what has no record. |
| Governance.CountsUnweighed | packages/governance/src/complaints.ts:107-116 | In every run a record counts exactly the complaints since its last approval or re-review. |
| Governance.ReasonIsKept | packages/governance/src/board.ts:323-378 | A blacklisting keeps its rationale as the reason, and no other decision touches it. |
| Governance.ChangedTo | packages/governance/src/board.ts:122-390 | Where each decision of the board takes a provider. |
| Governance.Standing | packages/governance/src/standing.ts:73-162 | The blockers are exactly those that apply; none exactly when the provider is approved, reviewed within its cadence and not restricted in the state. |
| Governance.OverdueADayAfterDue | packages/governance/src/standing.ts:117-134 | A review is overdue from one whole day after the date it falls due. |
| Governance.RecommendedProvidersAreCurrent | packages/governance/src/standing.ts:73-162 | In every run a recommendable provider is in scope, reviewed less than 91 days ago, and last decided approved. |
| Governance.EnoughToFlag | packages/governance/src/complaints.ts:25-38 | One severe complaint in the window reaches the threshold, or three moderate, or five low; without a severe one it is reached exactly when low plus twice moderate is at least five. |
| Governance.CrossingEndsApproval | packages/governance/src/complaints.ts:107-143 | A complaint that brings its provider to the threshold takes it out of approved in the same step; one that does not, or on a provider not approved, changes no status. |
| Governance.StepKeepsBelowExactly | packages/governance/src/complaints.ts:65-172 | A step keeps every approved provider below the threshold exactly when any window it opens is clear. |
| Governance.BelowThresholdThroughout | packages/governance/src/complaints.ts:65-172 | Approved providers are below the threshold in every state of a run if and only if every approval and re-review found its window clear. |
| Governance.LaterThanEveryComplaint | packages/governance/src/board.ts:225-255 | A window opened later than every complaint on the provider is clear. |
| Governance.BackdatedApprovalIsAtThreshold | packages/governance/src/board.ts:225-255 | A run in which an approval dated before a severe complaint on file leaves the provider approved at the threshold. |
| Governance.Board.SubmitForReview | packages/governance/src/board.ts:122-151 | Answers and writes row and minutes as the submission step of a run. |
| Governance.Board.Approve | packages/governance/src/board.ts:186-275 | Answers and writes row and minutes as the approval step of a run: a rationale, a provider in scope, a cadence of at most 90 days, and not out of a blacklist. |
| Governance.Board.RecordReview | packages/governance/src/board.ts:278-313 | Answers and writes row and minutes as the re-review step of a run; the status stays, the window restarts. |
| Governance.Board.FlagForReview | packages/governance/src/board.ts:367-368 | Answers and writes as the flagging step of a run: to under review. |
| Governance.Board.Suspend | packages/governance/src/board.ts:370-371 | Answers and writes as the suspending step of a run: to suspended. |
| Governance.Board.Blacklist | packages/governance/src/board.ts:373-378 | Answers and writes as the blacklisting step of a run: to blacklisted, the rationale kept as the reason. |
| Governance.Board.Reinstate | packages/governance/src/board.ts:380-390 | Answers and writes as the reinstating step of a run: to pending review, never to approved. |
| Governance.Board.Transition | packages/governance/src/board.ts:323-365 | A rationale and an existing record, or nothing changes; otherwise the status, the reason when one is given, and one decision from the old status to the new. |
| Governance.Board.RecordComplaint | packages/governance/src/complaints.ts:65-144 | Answers and writes complaint, count, status and minutes as the complaint step of a run; the score and the crossing are those of the theorems. |
| Registry.RegistryIsWellDeclared | packages/admin/src/registry.ts:79-224 | Every compiled default is a value its parameter accepts. |
| Registry.RegistryKeysAreDistinct | packages/admin/src/registry.ts:79-313 | No key is declared twice and no invariant is a parameter. |
| Registry.HighRiskExactly | packages/admin/src/registry.ts:79-224 | The five parameters whose changes are staged. |
| Settings.ValuesInForceAreInBounds | packages/admin/src/settings.ts:41-88 | In every run every parameter has a value in force inside its bounds, and the log holds registered keys only. |
| Settings.SpecifiedLimitsHold | packages/admin/src/registry.ts:79-170 | In every run the provider review cadence is at most the board's 90 days, recertification at most a year and the compliance target at least 90%. |
| Settings.SetTakesEffectExactly | packages/admin/src/settings.ts:60-68 | A low-risk change is in force after it is written exactly when it is not dated before the change in force. |
| Settings.SetLeavesTheRest | packages/admin/src/settings.ts:208-225 | A staged change alters nothing in force and an applied one no other key. |
| Settings.LogOnlyGrows | packages/admin/src/settings.ts:165-332 | No step removes or rewrites a row; promotion only fills in when and by whom. |
| Settings.ChangesNeedASeniorHuman | packages/admin/src/settings.ts:190-281 | No step changes the log unless its actor is on record as a human of level 3 or above. |
| Settings.UnknownIsNoData | packages/admin/src/settings.ts:165-332 | A change that does not proceed is refused; only a row that is not in the log is no data. |
| Settings.UnregisteredAnswers | packages/admin/src/settings.ts:41-58 | An invariant is refused as a parameter, and any other unregistered key is unknown. |
| Settings.ReadableExactly | packages/admin/src/settings.ts:179-189 | A reason without outer white space is readable from ten units on. |
| Common.TrimTakesTheEnds | packages/admin/src/settings.ts:179-189 | Trimming a reason takes white space off its ends and nothing else. |
| Common.WhitespaceUnits | packages/admin/src/settings.ts:179-189 | The white space that trimming takes off is 25 code units. |
| Settings.RowsTellWho | packages/admin/src/settings.ts:143-225 | The row of an accepted change or rollback says what was asked, by whom, why, what it replaces and when it came into force. |
| Settings.RollbackReasonText | packages/admin/src/settings.ts:327 | The reason a rollback records. |
| Settings.LowRiskHistoryIsAChain | packages/admin/src/settings.ts:165-242 | Under a clock that does not run backwards, the rows of a low-risk key chain from the default to the value in force with no no-op. |
| Settings.RollbackRefusedExactly | packages/admin/src/settings.ts:303-332 | A rollback by a senior human is refused exactly when its value is already in force. |
| Settings.RollbackUndoesSet | packages/admin/src/settings.ts:303-332 | Setting a low-risk parameter and rolling it back restores the value in force, with both rows on record. |
| Settings.RollbackOfTheLatest | packages/admin/src/settings.ts:303-332 | In every run, rolling back the latest change of a low-risk key restores the value before it and only adds a row. |
| Settings.PromotionTakesEffect | packages/admin/src/settings.ts:253-301 | A promotion later than every applied change of its key puts its value in force. |
| Settings.PromotersAreNamed | packages/admin/src/settings.ts:253-301 | In every run exactly the staged rows that are in force name who promoted them. |
| Settings.RollbackOfPromotionExactly | packages/admin/src/settings.ts:253-332 | Rolling back a promoted change and promoting the rollback restores what was in force before exactly when that was still the value recorded at staging. |
| Settings.StagedChangesLoseTheChain | packages/admin/src/settings.ts:197-301 | Two changes staged side by side: after the first is promoted, the second no longer records the value in force. |
| Settings.TwoStagedOverOneDefault | packages/admin/src/settings.ts:197-301 | A review cadence of 60 and then 30 days staged over the default of 90: once 60 is promoted, the other row still records 90. |
| Settings.Desk.SetParameter | packages/admin/src/settings.ts:165-242 | Answers and writes as the change step of a run: registered, readable reason, in bounds, senior human, a different value; staged when high-risk. |
| Settings.Desk.PromoteStagedChange | packages/admin/src/settings.ts:253-301 | Answers and writes as the promotion step of a run: only a staged row, only by a senior human. |
| Settings.Desk.Rollback | packages/admin/src/settings.ts:310-332 | Answers and writes as the rollback step of a run, through the same checks as a change. |
| Pii.ShapesAreThePatterns | packages/core/src/pii.ts:48-72 | The shapes looked for are exactly what the three regular expressions match; the long run is a maximal run of 8 to 17 digits touching no identifier character. |
| Pii.UuidPattern | packages/core/src/pii.ts:95-96 | The UUID pattern matches exactly 36 units of the 8-4-4-4-12 form between word boundaries. |
| Patterns.HexUnits | packages/core/src/pii.ts:95-96 | The hexadecimal digits are the 22 of both cases. |
| Patterns.IdentifierUnits | packages/core/src/pii.ts:51-72 | Long digit runs are set apart from word units and hyphens. |
| Patterns.BoundaryExactly | packages/core/src/pii.ts:48-49 | A word boundary lies where a word unit meets another unit or an end of the text. |
| Pii.BareUuidIsNotPii | packages/core/src/pii.ts:74-105 | A UUID on its own is never taken for personal data. |
| Pii.DetectedInAStretch | packages/core/src/pii.ts:87-105 | A text is detected if and only if one of the stretches between its UUIDs is detected on its own. |
| Pii.StretchesAreTheRest | packages/core/src/pii.ts:98-105 | Those stretches, joined, are the text the patterns are tried on. |
| Pii.RedactPii | packages/core/src/pii.ts:116-132 | The recursion and its loops compute the specified redaction. |
| Pii.AssertNoPii | packages/core/src/pii.ts:138-169 | The findings are exactly the paths at which personal data is found; it throws exactly when there is one. |
| Pii.Walker.Walk | packages/core/src/pii.ts:141-160 | The walk adds exactly the paths found below the node. |
| Pii.CleanExactlyWhenUnchanged | packages/core/src/pii.ts:107-169 | The assertion passes a payload if and only if redaction leaves it unchanged. |
| Pii.RedactedPassesTheAssertion | packages/core/src/pii.ts:107-169 | The assertion passes every redacted payload. |
| Pii.RedactedTwice | packages/core/src/pii.ts:116-132 | Redaction is idempotent. |
| Pii.RedactionKeepsTheShape | packages/core/src/pii.ts:109-132 | Arrays and keys stay as they are; only detected strings and values of named fields are replaced. |
| Pii.NamedFieldsAreRedacted | packages/core/src/pii.ts:23-42 | A field of a declared name is redacted whatever its value, however the name is capitalised. |
| Pii.RedactedText | packages/core/src/pii.ts:107 | What stands in the place of what is redacted. |
| Comms.MayContact | packages/comms/src/preferences.ts:288-337 | The blockers are exactly those that apply; none exactly when contact is permitted. |
| Comms.PermittedExactly | packages/comms/src/preferences.ts:288-337 | Email needs the client's permission only; a text or a call also no do-not-call and a known local hour from 8 to 20. |
| Comms.RouteUrgent | packages/comms/src/preferences.ts:357-386 | The loop computes the specified route. |
| Comms.UrgencyOnlyReroutes | packages/comms/src/preferences.ts:345-386 | A route is found exactly when some channel may be used, it may be used, and the wanted channel is left only when it may not. |
| Comms.FirstPermittedExactly | packages/comms/src/preferences.ts:357-386 | The channel found is the first permitted one in the order. |
| Comms.ApprovedExactly | packages/comms/src/send.ts:72-161 | A message is approved exactly when the preference gate and the chain let it; urgency needs only some permitted channel. |
| Comms.ApprovedMessagesAreLawful | packages/comms/src/send.ts:72-145 | In every run, an approved message was written by a send at whose moment its channel was permitted and, for a text or call, do-not-call was unset and the local hour was in [8, 21). |
| Comms.OnlyLiftingClears | packages/comms/src/preferences.ts:79-239 | A step clears do-not-call if and only if it is a lift for that client with a stated request. |
| Comms.NoCallUntilLifted | packages/comms/src/preferences.ts:139-239 | From a state with do-not-call set, no run without a lift approves a text or call to the client, urgent or not. |
| Comms.WithdrawnUntilAllowed | packages/comms/src/preferences.ts:86-137 | After a client withdraws a channel, no run approves anything on it for that client until an update allows it again. |
| Comms.PreferencesAsSaid | packages/comms/src/preferences.ts:86-137 | An update sets what it says of each channel and leaves the rest, do-not-call included. |
| Comms.InstructionRecorded | packages/comms/src/preferences.ts:146-188 | A do-not-call instruction is recorded with its reason beside what was permitted before. |
| Comms.RefusedWithoutAReason | packages/comms/src/preferences.ts:86-239 | What is refused, exactly, and what has no data; a refusal changes nothing but the log of a stopped message. |
| Comms.EveryMessageIsLogged | packages/comms/src/send.ts:72-251 | Every message with something in it adds one log entry of its client, body and time, approved exactly when the answer says so, and marked rerouted exactly when it goes out on another channel than asked. |
| Comms.SilenceIsNoPermission | packages/comms/src/preferences.ts:241-273 | Of a client who was never heard nothing is permitted and nothing is known. |
| Comms.StartsWhereWanted | packages/comms/src/preferences.ts:357-386 | Urgency takes the channel wanted, else the client's own, else email, when it may. |
| Comms.ReasonsGoWithInstructions | packages/comms/src/preferences.ts:139-239 | In every run a reason is kept exactly while the do-not-call instruction stands. |
| Comms.NextWindowOpening | packages/comms/src/windows.ts:118-133 | The first whole number of hours ahead, up to 48, at which the window is open, or none; the source's comment promises the next instant of permission. |
| Comms.FirstOpenStepIsTheOpeningExactly | packages/comms/src/windows.ts:109-133 | For any clock that changes only where an hour begins, by any amount, over the 48 hours stepped through, daylight saving included, asked while the window is closed: none is answered exactly when the window stays closed for 48 hours, and the answer is the next instant at which it is open if and only if the instant asked about is on the hour there; otherwise it is late by exactly the minutes past. |
| Comms.DaylightSavingChangesOnTheHour | packages/comms/src/windows.ts:124-126 | A zone that goes from one offset to another at the start of an hour, by whole hours, is such a clock. |
| Comms.FirstOpenStepWhenOpen | packages/comms/src/windows.ts:109-133 | Asked while the window is open, with the clock at one offset for the next twelve hours, the answer is an hour later, or twelve hours later in the window's last hour. |
| Comms.HalfPastSeven | packages/comms/src/windows.ts:109-133 | At 07:30 the window opens at 08:00 and the answer is 08:30. |
| Comms.AnOpeningWithinADay | packages/comms/src/windows.ts:118-133 | In a zone whose clock stays within an hour of one offset for a day, as it does when daylight saving starts or ends, an open step is found within 24 hours. |
| Comms.Desk.SetPreferences | packages/comms/src/preferences.ts:86-137 | Answers and writes as the preference step of a run; do-not-call is untouched. |
| Comms.Desk.SetDoNotCall | packages/comms/src/preferences.ts:146-188 | Answers and writes as the do-not-call step of a run; a blank reason changes nothing. |
| Comms.Desk.LiftDoNotCall | packages/comms/src/preferences.ts:197-239 | Answers and writes as the lifting step of a run; without a stated request nothing changes. |
| Comms.Desk.Send | packages/comms/src/send.ts:72-205 | Answers and logs as the sending step of a run: routed, gated, then the chain; a stopped message is logged too, and no answer is a success. |
| Comms.Desk.RecordInbound | packages/comms/src/send.ts:213-251 | Logs as the inbound step of a run, whatever the client's preferences. |

## Left out

- Credit.AvailableCredit: the database gives no order to a client's engagements; the model uses the order they were started in.
- CreditRuns.RefundVerdict: the triggers that read funding outcomes and charge descriptions are a parameter of the step; declining a refund writes no money and is not modelled.
- BillingDesk.Desk.PayRefund: the entitlements of two triggers are a parameter, about which nothing is assumed; the refund record row beside the money is not kept.
- BillingDesk.Desk.SourcesOn: a refund total beyond the safe integers throws in the source; it is added exactly here.
- Money.Sum: the running total is exact; doubles beyond the safe integers could round before the final check.
- BillingDesk.Desk.StartEngagement: the offer the engagement is started on is not read.
- Billing.UnearnedPrepay: the engagement status `completed` is not modelled, so cancelled is having a cancellation date.
- Cost.ComputeCostOfCapital: the number of periods is a natural number; IEEE rounding is not modelled, and none is answered where the source's payment would be NaN or infinite.
- Cost: `blendedCostOfCapital` and `compareRefinance` are weighted sums and differences of what is modelled.
- JsonReader.CanonicalJsonIsCanonical: numbers are safe integers; dates, NaN and fractions print like other values and are not in the value domain. `scannableText` and the renderers are not modelled.
- Base64Url.FromBase64Url: the WebAuthn option and response converters around it only rename fields.
- Placeholders.NothingSupplied: the variables are a map, so names inherited from the JavaScript object prototype are not looked up.
- Generate.GenerateContract: provenance, disclosure citations, the content hash and the ledger event of the contract are not modelled.
- Approval.Pipeline.RequestHumanReview: the notification it raises is not modelled.
- Approval.DeliversWhatWasDrafted: blocks are JSON values; their types matter to the renderers only.
- Governance.RecommendedProvidersAreCurrent: the provider directory does not change over a run; required disclosures and the referral agreement are not modelled.
- Settings.ValuesInForceAreInBounds: values are reals, so NaN and infinities, which the source refuses, do not arise; keys are names, any other text being a mistyped one.
- Pii.RedactPii: dates and keys named `__proto__` are not in the payload type; the findings' paths are lists of steps rather than text.
- Comms.PreferencesAsSaid: the free-text urgent routing note of a client is not stored.
- Comms.Desk.Send: whether a provider is active is not modelled, the answer being not-built either way; the message's template, subject and hash are not stored.
- Comms.FirstOpenStepWhenOpen: requires one offset for the next twelve hours, so the night of a change to or from daylight saving is outside it.
- Comms.FirstOpenStepIsTheOpeningExactly: a zone whose hours begin at another minute after a change, by half an hour say, is outside it for the 48 hours around the change. The theorems about permission and sending hold for any clock.
- Tenants, row identifiers drawn by the database, prose messages, and transactions under real concurrency.
- Ledger hashing and signing, field encryption, the HTTP applications and the portal's page scripts.
- Capital positions and stack health: filters, sums and weighted scores over a table.
- Balances.QuoteIsHonoured: the two offers are given as published; publishing and superseding offers is not modelled.
- The history queries: single reads over modelled state.
