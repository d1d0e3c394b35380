# Proposal generator core, in Dafny

This project models the pure core of a web app that a Brazilian audit firm
uses to price and draft commercial proposals ("propostas"). It covers the
following parts:

- **Pricing engine** (`Pricing`).
  - The page count picks a situation A–F and a page multiplier.
  - The folder count picks a folder multiplier.
  - A floor-style scan of the duration discount table picks the discount tier.
  - The price breakdown follows: the monthly base, the discounted monthly
    price, the total and the savings.
- **Date helpers** (`Dates`).
  - The inclusive month count between two dates.
  - The installment table: equal shares, a 10% Pix price, "NN/count"
    labels and "N dias após início" due texts.
  - The Portuguese long-form date "<day> de <month> de <year>".
- **Service catalog** (`Services`).
  - Six service codes, each with a name, a description, a default `.docx`
    template and a list of form fields.
  - The general audit (AUD) alone has three evaluated frameworks.
- **New-proposal wizard** (`ProposalWizard`). This is a three-step state
  machine.
  - Its events are gated by the step on screen and by the "next" guards.
  - Its code suggestion is `YYYY` + `MM` + service code + the next number.
  - The price is recomputed only for the condominium audit (AC).
  - It chooses the stored total and base values when finishing.
- **Client list search** (`ClientSearch`): a case-insensitive name match,
  or a raw CNPJ substring match.
- **Proposal list lookups** (`ProposalList`): the status badge style, the
  service label and the missing-client text. Each has a fallback.
- **CNPJ autofill** (`CnpjAutofill`).
  - The length guard and the digit stripping.
  - How a company-registry record fills the new-client form.

Two library modules support these. `Text` holds the JavaScript string
operations the source uses: decimal rendering, `padStart`, `includes`,
`toLowerCase` and the `\d` character class. It also holds `Split`, which no
modelled source file calls: the model's read-back lemmas use it to take
rendered texts apart again. `Sequences` holds `Array.prototype.filter` and
subsequences. `Wrappers` holds `Option`.

Modelling choices:

- Money and multipliers are exact `real`s. Page, folder, month and
  installment counts are unbounded `int`s.
- The clock, date-string parsing and the registry request are function
  parameters:
  - the calendar fields of a date;
  - `parseDate: string -> CalendarDate`;
  - `lookup: string -> Option<CnpjRecord>`.

### Behaviours worth knowing

- **A same-month period counts 0 months.** `getMonthsDiff` returns 0 when
  start and end fall in the same calendar month, 2 for adjacent months, and
  never 1 (`Dates.MonthsDiff`).
- **A non-positive installment count gives no rows.**
  `generateInstallmentRows` returns an empty table and does not fail.
- **Negative volumes and durations are accepted.** Negative page and folder
  counts fall into situation A and folder multiplier 1.0. A negative
  duration gives a negative total (`Pricing.NegativeDurationPrice`).
- **Short contracts report tier 12.** Below twelve months the tier is
  reported as 12 with rate 0, although 12 is then above the duration.

## Model

| member | source | states |
|---|---|---|
| Pricing.TiersAreKeys | app/lib/pricing.ts:62 | The sorted tier list the scan walks holds exactly the keys of the discount table. |
| Pricing.TableRatesOrdered | app/lib/pricing.ts:5-16 | A larger table key never has a smaller discount rate. |
| Pricing.TableRatesInRange | app/lib/pricing.ts:5-16 | Every discount rate lies in [0, 0.45]. |
| Pricing.CalculatePriceFactors | app/lib/pricing.ts:19-45 | The page multiplier lies in [1.0, 2.0] and the folder multiplier in [1.0, 1.60]. Negative pages give situation A at 1.0, and negative folders give 1.0. |
| Pricing.PageFactorIsFirstBucket | app/lib/pricing.ts:24-29 | The page if-chain equals "the first bucket whose inclusive upper bound admits the count" over the table (200,A,1.0)…(1000,E,1.85), with (F,2.0) beyond. |
| Pricing.PageBoundsInclusive | app/lib/pricing.ts:24-29 | Each bound belongs to its own bucket, and one page more belongs to the next; 1001 pages is (F, 2.0). |
| Pricing.PageFactorMonotone | app/lib/pricing.ts:24-29 | More pages never lower the page multiplier or the situation letter. |
| Pricing.FolderMultiplierIsFirstStep | app/lib/pricing.ts:32-42 | The folder if-chain equals "the first threshold, from 90 down, that the count strictly exceeds", else 1.0. |
| Pricing.FolderThresholdsStrict | app/lib/pricing.ts:32-42 | A count equal to a threshold takes the next lower multiplier, and one more folder takes the threshold's own (10→1.0, 11→1.10, 90→1.50, 91→1.60). |
| Pricing.FolderMultiplierMonotone | app/lib/pricing.ts:32-42 | More folders never lower the folder multiplier. |
| Pricing.ScanTiersNone | app/lib/pricing.ts:66-71 | When every tier exceeds the duration, the loop keeps its initial tier and rate. |
| Pricing.ScanTiersLast | app/lib/pricing.ts:66-71 | Over ascending table keys, once the first is reached the loop ends on the largest tier not above the duration, with that tier's rate. |
| Pricing.ScanTiersOutcome | app/lib/pricing.ts:66-71 | Whatever the order of the tiers, the loop ends on its initial tier or on a tier the duration reaches, carrying that tier's table rate. |
| Pricing.SelectTier | app/lib/pricing.ts:62-71 | The chosen tier is a table key with its rate. It is at least every key not above the duration, and at most the duration from 12 months on. Below 12 months it is tier 12 at rate 0. |
| Pricing.SelectTierReached | app/lib/pricing.ts:62-71 | From 12 months on, the loop over the sorted keys ends on the largest key not above the duration, with its rate. |
| Pricing.SelectTierBelow | app/lib/pricing.ts:63-71 | Below 12 months no key is reached and the loop keeps tier 12 at rate 0. |
| Pricing.SelectTierAtKey | app/lib/pricing.ts:62-71 | A duration equal to a table key selects exactly that key and its rate. |
| Pricing.DiscountRateMonotone | app/lib/pricing.ts:62-71 | A longer duration never yields a smaller discount rate or a smaller tier. |
| Pricing.CalculateComplexPrice | app/lib/pricing.ts:57-87 | The monthly base is 1097 × page multiplier × folder multiplier. The tier comes from the scan. The breakdown is `Consistent`: final = base·(1−rate), total = final·duration, savings = base·duration − total = base·rate·duration, and 0 < final ≤ base. For duration ≥ 0 the total and savings are non-negative, and duration 0 gives total = savings = 0. |
| Pricing.Breakdown | app/lib/pricing.ts:73-86 | For factors in range and a rate in the table's range, the returned record carries the factors' situation and base and the tier, and is `Consistent`. |
| Pricing.ProductBounds | app/lib/pricing.ts:3 | For multipliers in range, the monthly base lies between 1097 and 1097 × 2.0 × 1.60. |
| Pricing.ConsistentFromDefinition | app/lib/pricing.ts:73-76 | Fields defined by the four assignments of the source satisfy every relation of `Consistent`. |
| Pricing.PriceArithmetic | app/lib/pricing.ts:73-76 | The savings equal base·rate·duration and the discounted monthly price lies in (0, base]. A non-negative duration gives a non-negative total and savings, a negative duration a negative total and savings that are not positive, and duration 0 gives both 0. |
| Pricing.DiscountedMonthly | app/lib/pricing.ts:73 | For a base of at least 1097 and a rate in [0, 0.45], the discounted monthly price is positive and at most the base. |
| Pricing.NegativeDurationPrice | app/lib/pricing.ts:57-87 | A negative duration is not rejected: the price has a negative total and savings that are not positive. |
| Pricing.ScenarioSmallContract | app/lib/pricing.ts:57-87 | 150 pages, 5 folders and 12 months give situation A, base 1097, rate 0 and a total of twelve base months. |
| Pricing.ScenarioMidContract | app/lib/pricing.ts:57-87 | 700 pages, 85 folders and 36 months give situation D, base 1097 × 1.65 × 1.50, tier 36 at 14%, and a final monthly price of 86% of the base. |
| Dates.MonthsDiff | app/lib/dates.ts:9-15 | The month count is never negative and never 1. It is 0 exactly when the end's month is not after the start's. |
| Dates.NextMonth | app/lib/dates.ts:9-11 | The following calendar month has a month index one higher. |
| Dates.MonthsVisitedIsDistance | app/lib/dates.ts:9-11 | Stepping month by month from start to end meets (raw distance + 1) months. |
| Dates.MonthsDiffCountsCalendarMonths | app/lib/dates.ts:9-15 | A later end month gives the number of calendar months from the start's to the end's, both included. The same or an earlier month gives 0. |
| Dates.MonthsDiffIgnoresDay | app/lib/dates.ts:9-11 | Changing the day of either date never changes the count. |
| Dates.MonthsDiffMonotone | app/lib/dates.ts:9-15 | Moving the end one month later never lowers the count. |
| Dates.InstallmentRows | app/lib/dates.ts:18-33 | There are `count` rows when count ≥ 1 and none otherwise. Row k carries the label of installment k+1 and its due text. |
| Dates.InstallmentValues | app/lib/dates.ts:19-20 | Every row's value is total/count, `count` of them make the total, and the Pix value is 90% of it. |
| Dates.SharesMakeTotal | app/lib/dates.ts:19 | `count` shares of total/count make up the total. |
| Dates.SumOfConstant | app/lib/dates.ts:28 | A sequence of n equal values sums to n times the value. |
| Dates.InstallmentsSumToTotal | app/lib/dates.ts:19-29 | The row values sum exactly to the total, and the Pix values sum to 90% of it. |
| Dates.InstallmentIndexReadsBack | app/lib/dates.ts:26 | Each label splits at '/' into two digit strings that read as the installment number and the count. |
| Dates.InstallmentIndicesDistinct | app/lib/dates.ts:26 | No two rows share a label. |
| Dates.InstallmentDaysReadBack | app/lib/dates.ts:23-27 | For 0 < k < count, row k (installment k+1) has a due text that splits at spaces into exactly "<30·k>", "dias", "após", "início", and its first word reads back as 30·k. |
| Dates.DescriptionDaysReadBack | app/lib/dates.ts:24 | For installment i > 1, the due text splits at spaces into exactly "<30·(i−1)>", "dias", "após", "início", and its first word reads back as 30·(i−1). |
| Dates.DaysWords | app/lib/dates.ts:24 | A rendered day count followed by " dias após início" splits into the count and the three words. |
| Dates.MonthNumberFrom | app/lib/dates.ts:37-40 | The name lookup in the 12-entry month table returns a position holding that name, or none when the name is absent. |
| Dates.ParseExtenso | app/lib/dates.ts:41 | A successful read gives a valid month and a non-negative day and year. |
| Dates.MonthNamesDistinct | app/lib/dates.ts:37-40 | The twelve month names are pairwise distinct. |
| Dates.DateExtenso | app/lib/dates.ts:35-42 | For a valid month and a non-negative day and year, the long date reads back as exactly the date it was rendered from. |
| Dates.ExtensoWords | app/lib/dates.ts:41 | The long date splits at spaces into day, "de", month name, "de", year. |
| Dates.LongDateRoundTrip | app/lib/dates.ts:37-41 | Reading the long-date layout back gives the date it was rendered from, for every non-negative day and year and valid month, so distinct dates render distinctly. |
| Services.ParseServiceCode | app/lib/services.ts:4 | A string read as a code is exactly that code's spelling. |
| Services.ParseServiceCodeRoundTrip | app/lib/services.ts:4 | Every code's spelling reads back as the code. |
| Services.CodeStringsAreLetters | app/lib/services.ts:4 | Every code is a non-empty run of capital letters. |
| Services.CatalogKeys | app/lib/services.ts:22-76 | The catalog's keys are exactly AC, AUD, ATS, CON, INV and OTHER. |
| Services.Lookup | app/lib/services.ts:22-76 | Each entry's id equals its key. Only AUD has sub-types. Every default template is a non-empty name ending in ".docx". |
| Services.AudSubTypesShape | app/lib/services.ts:35-40 | AUD has three frameworks, NBC_TA_800, NBC_TA_200_700 and NBC_TSC_4400, with distinct ids. Their templates are pairwise distinct, and each differs from AUD's default. |
| Services.AcFields | app/lib/services.ts:29 | AC asks for pages, folders, start_date and end_date, in that order. |
| Services.SubTypeIds | app/lib/services.ts:35-39 | A service offers frameworks exactly when it is AUD, and no framework id is empty. |
| ProposalWizard.LetterPrefixLength | app/dashboard/proposals/new/page.tsx:65-67 | The letter prefix of a code's tail has no digit and is followed by a digit or the end. |
| ProposalWizard.SuggestCode | app/dashboard/proposals/new/page.tsx:56-68 | For a four-digit year, a valid month and a non-negative next number, the suggested code decodes back to its year, its 0-based month, the selected service (AC when none is selected) and count + 1 + 83. |
| ProposalWizard.FormatCodeRoundTrip | app/dashboard/proposals/new/page.tsx:61-67 | The layout year + two-digit month + service code + number decodes back to those four parts for a four-digit year, a valid month and a non-negative number. |
| ProposalWizard.HeadOfCode | app/dashboard/proposals/new/page.tsx:63-67 | The decoder reads the year and month off the front of the layout and passes the service code and number on. |
| ProposalWizard.ServiceTail | app/dashboard/proposals/new/page.tsx:65-67 | A service code followed by a rendered non-negative number decodes to that service and number. |
| ProposalWizard.HeadPieces | app/dashboard/proposals/new/page.tsx:63-64 | Four digits and two digits in front of any text decode as year and month + 1, and the text goes to the tail decoder. |
| ProposalWizard.TailPieces | app/dashboard/proposals/new/page.tsx:65-67 | Capital letters spelling a service, then a non-empty digit run, decode to the service and the run's value. |
| ProposalWizard.FourDigitYear | app/dashboard/proposals/new/page.tsx:63 | A year from 1000 to 9999 renders with exactly four digits. |
| ProposalWizard.YearPiece | app/dashboard/proposals/new/page.tsx:63 | A year from 1000 to 9999 renders as four digits that read back as the year. |
| ProposalWizard.MonthPiece | app/dashboard/proposals/new/page.tsx:64 | The padded month is two digits that read as month + 1. |
| ProposalWizard.NumberPiece | app/dashboard/proposals/new/page.tsx:59 | A non-negative sequence number renders as digits that read back as the number. |
| ProposalWizard.Step | app/dashboard/proposals/new/page.tsx:296-318 | Back gives max(1, step−1). Next advances only below step 3 and when not disabled. Choosing a service on step 2 sets it and clears the framework. No other event moves the step. |
| ProposalWizard.NextDisabled | app/dashboard/proposals/new/page.tsx:314-318 | From a valid state below step 3, "next" is disabled exactly when moving one step on would break the invariant: no client on step 1, and on step 2 no service, or AUD without a framework. |
| ProposalWizard.StepPreservesValid | app/dashboard/proposals/new/page.tsx:154-186 | Each event keeps the invariant: the step is in 1..3, past step 1 a client is chosen, on step 3 a service is chosen (with a framework for AUD), and a chosen framework is one the service offers. |
| ProposalWizard.InitialStateValid | app/dashboard/proposals/new/page.tsx:15-39 | The wizard's initial state satisfies the invariant. |
| ProposalWizard.RunPreservesValid | app/dashboard/proposals/new/page.tsx:296-318 | Any sequence of events from a valid state ends in a valid state. |
| ProposalWizard.ReachableStatesValid | app/dashboard/proposals/new/page.tsx:304-318 | From the start, any sequence of events keeps the step in {1, 2, 3}, and step 3 is reached only with a client and a service chosen. |
| ProposalWizard.RecomputePrice | app/dashboard/proposals/new/page.tsx:71-79 | A price exists exactly for AC with pages > 0 and both dates filled. It is computed from the pages, the folders and the month count between the dates. |
| ProposalWizard.ComputedPriceNonNegative | app/dashboard/proposals/new/page.tsx:72-75 | A computed price has a non-negative duration, total and savings, and its total is at most the undiscounted one. |
| ProposalWizard.PriceIgnoresManualInputs | app/dashboard/proposals/new/page.tsx:72-74 | The scope text and the manual price never affect the computed price. |
| ProposalWizard.DateOrNull | app/dashboard/proposals/new/page.tsx:93-94 | An empty date is stored as null, and any other as itself. |
| ProposalWizard.FinishRecord | app/dashboard/proposals/new/page.tsx:81-97 | The total is the price's total when a price exists, else the manual price. The base is the price's monthly base, else that same value. The status is GENERATED, empty dates become null, and the client, code and framework are carried over. |
| ProposalWizard.FinishDisabled | app/dashboard/proposals/new/page.tsx:326 | An enabled button means nothing is saving and, for AC, a price exists whose total is the stored total. With nothing saving, the button is enabled for any service other than AC, and for AC once a price exists. |
| ProposalWizard.AcProposalStoresComputedPrice | app/dashboard/proposals/new/page.tsx:326 | When finishing is enabled for AC, a price exists. The stored total and base are its total and monthly base, the base is at least 1097, and the service type is "AC". |
| ProposalWizard.OtherProposalStoresManualPrice | app/dashboard/proposals/new/page.tsx:85-96 | Any service other than AC stores the manual price as both the total and the base. |
| ClientSearch.FilterClients | app/dashboard/clients/page.tsx:29-32 | Every shown client matches the term, and no more clients are shown than exist. |
| ClientSearch.FilterClientsMembership | app/dashboard/clients/page.tsx:29-32 | A client is shown exactly when it is in the list and its lower-cased name contains the lower-cased term, or its CNPJ contains the term. A matching row listed n times is shown n times, and a row that does not match is never shown. |
| ClientSearch.FilterClientsSubsequence | app/dashboard/clients/page.tsx:29 | The shown clients keep the list's order. |
| ClientSearch.EmptyTermKeepsAll | app/dashboard/clients/page.tsx:29-32 | An empty search shows every client, in order. |
| ClientSearch.FilterClientsIdempotent | app/dashboard/clients/page.tsx:29-32 | Filtering the shown clients again changes nothing. |
| ClientSearch.NoCnpjMatchesByNameOnly | app/dashboard/clients/page.tsx:31 | A client without a CNPJ matches only through its name. |
| ClientSearch.NameSearchIgnoresTermCase | app/dashboard/clients/page.tsx:30 | Lower-casing the term first never changes the name match. |
| ClientSearch.CnpjSearchIsRaw | app/dashboard/clients/page.tsx:31 | The CNPJ match is case-sensitive and ignores no punctuation: "a.1" is found by "a.1", but not by "A.1" or "a1". |
| ProposalList.StatusBadge | app/dashboard/proposals/page.tsx:38-47 | The five known statuses get their styles, and any other status gets the draft style. |
| ProposalList.StatusBadgeDistinguishes | app/dashboard/proposals/page.tsx:39-45 | The five known statuses have pairwise distinct styles. |
| ProposalList.StatusBadgeIsDraftStyle | app/dashboard/proposals/page.tsx:38-47 | A status shows the draft style exactly when it is DRAFT or unknown. |
| ProposalList.ServiceLabel | app/dashboard/proposals/page.tsx:49-57 | AC, AUD, PPA and CON get their labels, and any other type shows as itself. |
| ProposalList.CatalogCodeLabel | app/dashboard/proposals/page.tsx:49-57 | Among the catalog codes, exactly ATS, INV and OTHER show as their raw code. |
| ProposalList.ClientDisplayName | app/dashboard/proposals/page.tsx:107 | The client column shows the joined client's name, or "Cliente não encontrado" when it is missing or empty. It is never empty. |
| CnpjAutofill.CleanCnpj | app/dashboard/clients/new/page.tsx:30 | The cleaned CNPJ consists of digits only. |
| CnpjAutofill.CleanCnpjKeepsDigits | app/dashboard/clients/new/page.tsx:30 | The cleaned CNPJ is an order-preserving subsequence of the input that holds each digit exactly as often as the input does, and no other character. |
| CnpjAutofill.CleanCnpjPieces | app/dashboard/clients/new/page.tsx:30 | Cleaning works character by character: a digit is kept, any other character is dropped, and cleaning a concatenation concatenates the cleaned parts. |
| CnpjAutofill.CleanCnpjOfDigits | app/dashboard/clients/new/page.tsx:30 | A CNPJ typed without punctuation is sent unchanged. |
| CnpjAutofill.CleanCnpjIdempotent | app/dashboard/clients/new/page.tsx:30 | Cleaning twice is the same as cleaning once. |
| CnpjAutofill.PickPhone | app/dashboard/clients/new/page.tsx:42 | The phone is the first phone if present and non-empty, else the second if so, else "". It is "" exactly when neither is usable. |
| CnpjAutofill.PickContact | app/dashboard/clients/new/page.tsx:44 | The contact is the first partner's name when the partner list is non-empty, else "". |
| CnpjAutofill.FormatAddress | app/dashboard/clients/new/page.tsx:41 | The address is street, number, district, city, state and postal code in that order, joined by ", ", " - ", ", ", " - " and ", ". So it starts with "<street>, ", ends with ", <postal code>", and adds exactly the 12 separator characters to the six fields. |
| CnpjAutofill.Autofill | app/dashboard/clients/new/page.tsx:37-45 | The name comes from the legal name, and the address, phone and contact from their rules. The CNPJ and e-mail stay as typed. |
| CnpjAutofill.AutofillOverwritesCompanyFields | app/dashboard/clients/new/page.tsx:38-45 | The filled form depends on the previous form only through its CNPJ and e-mail. |
| CnpjAutofill.AutofillIdempotent | app/dashboard/clients/new/page.tsx:38-45 | Filling again from the same record changes nothing. |
| CnpjAutofill.Search | app/dashboard/clients/new/page.tsx:24-51 | No request is made exactly when the CNPJ is empty or shorter than 14 characters. A failed request keeps the form. A successful one fills it from the record fetched with the cleaned CNPJ, keeping the CNPJ and e-mail. |
| CnpjAutofill.FormAfter | app/dashboard/clients/new/page.tsx:37-49 | The form changes only after a successful lookup. |
| CnpjAutofill.ShortCnpjLeavesFormAlone | app/dashboard/clients/new/page.tsx:25 | A CNPJ shorter than 14 characters, punctuation included, never changes the form, whatever the registry would answer. |
| CnpjAutofill.SearchSendsDigits | app/dashboard/clients/new/page.tsx:25-31 | When the guard passes, a request is made with a digits-only CNPJ. |

## Left out

- `formatCurrency`: it delegates to the platform's pt-BR currency formatter.
- Floating-point rounding: every price is an exact real, so nothing is
  claimed about binary-double results.
- Date-string parsing and the clock.
  - `getMonthsDiff` takes calendar fields.
  - The long date takes (day, month, year).
  - The wizard takes `parseDate` as a parameter.
  - Invalid dates (NaN fields) and local-time versus UTC parsing are
    platform behaviour.
- Database reads and writes, the registry `fetch`, storage, router
  redirects, `alert`, authentication, and React state, effects and
  rendering.
  - The proposal count and the registry answer are parameters.
  - The loading flag of the finish guard is a parameter.
  - The asynchronous suggestion is the `CodeSuggested` event.
- The templates page, the upload script and the static pages: these sit
  outside the modelled core. The upload script's environment-file parsing
  and its mapping from source file names to template names are not
  modelled.
- The download route's resolution of a framework to a template, and its
  merge mapping: these sit outside the modelled core.
- Fractional page, folder and installment counts (JavaScript numbers):
  - counts are integers;
  - `Number("")`-style coercions are not modelled;
  - the default installment count of 10 is not modelled, because callers
    pass the count.
- ProposalWizard.Step: the `CodeSuggested` event formats the code with
  the service chosen when the reply is applied. The page uses the service
  of the render that started the request, so a late reply there can carry
  a previously chosen service. Either way a well-formed code lands in the
  same field, so the reachable states and the proved invariants are the
  same.
- CnpjAutofill.Search: the 14-character guard counts characters, not
  UTF-16 code units.
- ClientSearch.Matches: `toLowerCase` is modelled for the ASCII and
  Latin-1 letters only.
- The icon of each catalog entry and the icon library: they are
  presentation only. The framework's `label` field is kept under the name
  `caption`, because `label` is a reserved word in Dafny.
- ProposalList.StatusBadge: keys inherited from the JavaScript object
  prototype (such as "constructor") are not modelled.
- ProposalList.ServiceLabel: likewise, inherited prototype keys are not
  modelled.
- CnpjAutofill.Autofill: the record's address fields are strings. A
  missing field that the template literal would render as "undefined" or
  "null" is not modelled.
- ProposalWizard.SuggestCode: the round trip is stated for years
  1000–9999 and a non-negative next number. Outside that range the
  concatenation is not uniquely readable, and the model does not claim it
  is.
- Dates.DateExtenso: the read-back is stated for a non-negative day and
  year. A clock date always has both, and a leading minus sign is not
  something the reader accepts.
- ProposalWizard.NextDisabled: the equivalence with the invariant is
  stated for valid states below step 3. On step 3 the page shows the
  finish button in its place.
