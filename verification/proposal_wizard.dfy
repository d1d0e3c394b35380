/** The pure rules of the three-step "new proposal" wizard: (1) choose a
    client and a proposal code, (2) choose a service and, for the general
    audit, its framework, (3) enter the details, which for the condominium
    audit yield a computed price. The page's state is a value; every user
    action is an event that changes it only when its control is on screen
    and enabled. */
module ProposalWizard {
  import opened Wrappers
  import opened Text
  import opened Pricing
  import opened Dates
  import opened Services

  // ---- Proposal code suggestion ---------------------------------------------

  /** The number the next proposal gets: the stored proposal count (absent
      reads as 0), plus one, plus the 83 proposals of the legacy numbering. */
  function NextNumber(count: Option<int>): int {
    count.GetOr(0) + 1 + 83
  }

  /** The suggested code: year, two-digit month (January is "01"), the
      selected service's code ("AC" when none is selected yet) and the next
      number, run together. For a four-digit year, a valid month and a
      non-negative number, the code reads back as exactly those parts. */
  function SuggestCode(year: int, month0: int, service: Option<ServiceCode>, count: Option<int>): (code: string)
    ensures 1000 <= year <= 9999 && 0 <= month0 < 12 && NextNumber(count) >= 0 ==>
      DecodeCode(code) == Some(CodeParts(year, month0, service.GetOr(AC), NextNumber(count)))
  {
    var c := service.GetOr(AC);
    var number := NextNumber(count);
    if 1000 <= year <= 9999 && 0 <= month0 < 12 && number >= 0 then
      FormatCodeRoundTrip(year, month0, c, number);
      FormatCode(year, month0, c, number)
    else
      FormatCode(year, month0, c, number)
  }

  /** The code layout: the year and two-digit month, then the service code
      and the number. */
  function FormatCode(year: int, month0: int, c: ServiceCode, number: int): string {
    (IntToString(year) + PadStart(IntToString(month0 + 1), 2, '0'))
      + (CodeString(c) + IntToString(number))
  }

  datatype CodeParts = CodeParts(year: int, month0: int, service: ServiceCode, number: int)

  /** The number of leading characters of `s` that are not digits. */
  function LetterPrefixLength(s: string): (k: nat)
    ensures k <= |s|
    ensures forall i :: 0 <= i < k ==> !IsDigit(s[i])
    ensures k < |s| ==> IsDigit(s[k])
    decreases |s|
  {
    if |s| == 0 || IsDigit(s[0]) then 0 else 1 + LetterPrefixLength(s[1..])
  }

  /** Reads a code of the suggested shape back: four digits of year, two of
      month, then the service code and the number. */
  function DecodeCode(s: string): Option<CodeParts> {
    if |s| >= 6 && AllDigits(s[..6]) then DecodeTail(ParseNat(s[..4]), ParseNat(s[4..6]) - 1, s[6..])
    else None
  }

  /** The part of a code after year and month: a service code and a
      non-empty run of digits. */
  function DecodeTail(year: int, month0: int, rest: string): Option<CodeParts> {
    var k := LetterPrefixLength(rest);
    var digits := rest[k..];
    match ParseServiceCode(rest[..k])
    case Some(c) =>
      if |digits| > 0 && AllDigits(digits) then Some(CodeParts(year, month0, c, ParseNat(digits)))
      else None
    case None => None
  }

  /** A year from 1000 to 9999 renders with exactly four digits. */
  lemma FourDigitYear(n: nat)
    requires 1000 <= n <= 9999
    ensures |NatToString(n)| == 4
  {
    assert |NatToString(n / 1000)| == 1;
    assert |NatToString(n / 100)| == 2;
    assert |NatToString(n / 10)| == 3;
  }

  /** Letters followed by digits: the letter prefix is exactly the letters. */
  lemma {:induction false} LetterPrefixOfLettersThenDigits(t: string, n: string)
    requires forall i :: 0 <= i < |t| ==> 'A' <= t[i] <= 'Z'
    requires |n| > 0 && IsDigit(n[0])
    ensures LetterPrefixLength(t + n) == |t|
    decreases |t|
  {
    if |t| > 0 {
      assert (t + n)[1..] == t[1..] + n;
      LetterPrefixOfLettersThenDigits(t[1..], n);
    }
  }

  /** Four digits and two digits in front of anything: the decoder reads
      them as year and month and hands the rest to the tail decoder. */
  lemma HeadPieces(y: string, m: string, rest: string)
    requires |y| == 4 && AllDigits(y) && |m| == 2 && AllDigits(m)
    ensures DecodeCode((y + m) + rest) == DecodeTail(ParseNat(y), ParseNat(m) - 1, rest)
  {
    DigitsConcat(y, m);
    assert (y + m)[..4] == y && (y + m)[4..6] == m;
    DecodeHead(y + m, rest, y, m);
  }

  /** Service letters followed by a non-empty run of digits: the tail
      decoder reads the service and the number. */
  lemma TailPieces(year: int, month0: int, t: string, n: string, c: ServiceCode)
    requires forall i :: 0 <= i < |t| ==> 'A' <= t[i] <= 'Z'
    requires ParseServiceCode(t) == Some(c)
    requires |n| > 0 && AllDigits(n)
    ensures DecodeTail(year, month0, t + n) == Some(CodeParts(year, month0, c, ParseNat(n)))
  {
    LetterPrefixOfLettersThenDigits(t, n);
    assert (t + n)[..|t|] == t && (t + n)[|t|..] == n;
    DecodeTailSplit(year, month0, t + n, t, n, c);
  }

  lemma DigitsConcat(a: string, b: string)
    requires AllDigits(a) && AllDigits(b)
    ensures AllDigits(a + b)
  {
    forall i | 0 <= i < |a + b|
      ensures IsDigit((a + b)[i])
    {
      if i < |a| {
        assert (a + b)[i] == a[i];
      } else {
        assert (a + b)[i] == b[i - |a|];
      }
    }
  }

  /** How the decoder cuts a code: the six-digit head holds the year and
      the month, and the rest goes to the tail decoder. */
  lemma DecodeHead(head: string, rest: string, y: string, m: string)
    requires |head| == 6 && AllDigits(head)
    requires head[..4] == y && head[4..6] == m
    ensures DecodeCode(head + rest) == DecodeTail(ParseNat(y), ParseNat(m) - 1, rest)
  {
    var s := head + rest;
    assert s[..6] == head && s[6..] == rest;
    assert s[..4] == y && s[4..6] == m;
  }

  /** A tail of service letters followed by digits decodes to the service
      and the number. */
  lemma DecodeTailSplit(year: int, month0: int, rest: string, t: string, n: string, c: ServiceCode)
    requires |t| <= |rest| && LetterPrefixLength(rest) == |t|
    requires rest[..|t|] == t && rest[|t|..] == n
    requires ParseServiceCode(t) == Some(c)
    requires |n| > 0 && AllDigits(n)
    ensures DecodeTail(year, month0, rest) == Some(CodeParts(year, month0, c, ParseNat(n)))
  {
  }

  /** The rendering of a non-negative number is a non-empty digit string
      that reads back as the number. */
  lemma NumberPiece(v: int)
    requires v >= 0
    ensures |IntToString(v)| > 0 && AllDigits(IntToString(v)) && ParseNat(IntToString(v)) == v
  {
    ParseNatToString(v);
  }

  /** The month piece: two digits reading as the month's number. */
  lemma MonthPiece(month0: int)
    requires 0 <= month0 < 12
    ensures var m := PadStart(IntToString(month0 + 1), 2, '0');
      |m| == 2 && AllDigits(m) && ParseNat(m) == month0 + 1
  {
    ParsePaddedNat(month0 + 1, 2);
  }

  /** For a four-digit year, a valid month and a non-negative number, the
      code layout reads back as its year, month, service and number. */
  lemma FormatCodeRoundTrip(year: int, month0: int, c: ServiceCode, number: int)
    requires 1000 <= year <= 9999 && 0 <= month0 < 12 && number >= 0
    ensures DecodeCode(FormatCode(year, month0, c, number)) == Some(CodeParts(year, month0, c, number))
  {
    HeadOfCode(year, month0, c, number);
    ServiceTail(year, month0, c, number);
  }

  /** The decoder reads the year and month off the front of the layout and
      hands the service code and number to the tail decoder. */
  lemma HeadOfCode(year: int, month0: int, c: ServiceCode, number: int)
    requires 1000 <= year <= 9999 && 0 <= month0 < 12
    ensures DecodeCode(FormatCode(year, month0, c, number))
      == DecodeTail(year, month0, CodeString(c) + IntToString(number))
  {
    var y := IntToString(year);
    var m := PadStart(IntToString(month0 + 1), 2, '0');
    YearPiece(year);
    MonthPiece(month0);
    HeadPieces(y, m, CodeString(c) + IntToString(number));
  }

  /** The service code followed by a non-negative number decodes to the
      service and the number. */
  lemma ServiceTail(year: int, month0: int, c: ServiceCode, number: int)
    requires number >= 0
    ensures DecodeTail(year, month0, CodeString(c) + IntToString(number))
      == Some(CodeParts(year, month0, c, number))
  {
    NumberPiece(number);
    ServicePiece(c);
    TailPieces(year, month0, CodeString(c), IntToString(number), c);
  }

  /** The year piece: four digits reading as the year. */
  lemma YearPiece(year: int)
    requires 1000 <= year <= 9999
    ensures |IntToString(year)| == 4 && AllDigits(IntToString(year)) && ParseNat(IntToString(year)) == year
  {
    FourDigitYear(year);
    NumberPiece(year);
  }

  /** The service piece: capital letters that read back as the service. */
  lemma ServicePiece(c: ServiceCode)
    ensures forall i :: 0 <= i < |CodeString(c)| ==> 'A' <= CodeString(c)[i] <= 'Z'
    ensures ParseServiceCode(CodeString(c)) == Some(c)
  {
    CodeStringsAreLetters(c);
    ParseServiceCodeRoundTrip(c);
  }

  // ---- Wizard state ---------------------------------------------------------

  /** The detail inputs of step 3. */
  datatype InputData = InputData(
    startDate: string,
    endDate: string,
    pages: int,
    folders: int,
    scopeDetails: string,
    manualPrice: real
  )

  /** The page state: the step shown, the chosen client id ("" for none),
      the chosen service, the chosen framework id ("" for none), the detail
      inputs and the editable proposal code. */
  datatype WizardState = WizardState(
    step: int,
    client: string,
    service: Option<ServiceCode>,
    subType: string,
    input: InputData,
    code: string
  )

  const InitialState: WizardState :=
    WizardState(1, "", None, "", InputData("", "", 0, 0, "", 0.0), "")

  datatype Event =
    | Back
    | Next
    | ChooseClient(clientId: string)
    | EditCode(newCode: string)
    | ChooseService(chosen: ServiceCode)
    | ChooseSubType(subTypeId: string)
    | SetStartDate(startDate: string)
    | SetEndDate(endDate: string)
    | SetPages(pages: int)
    | SetFolders(folders: int)
    | SetScope(scope: string)
    | SetManualPrice(price: real)
      /** The asynchronous suggestion completed with today's year and month
          and the stored proposal count. */
    | CodeSuggested(year: int, month0: int, count: Option<int>)

  /** The "next" button is disabled on step 1 without a client, and on
      step 2 without a service or, for the general audit, without a
      framework. From a valid state below step 3 it is disabled exactly when
      moving on would break the wizard's guarantees. */
  predicate NextDisabled(s: WizardState)
    ensures Valid(s) && s.step < 3 ==> (NextDisabled(s) <==> !Valid(s.(step := s.step + 1)))
  {
    || (s.step == 1 && s.client == "")
    || (s.step == 2 && s.service.None?)
    || (s.step == 2 && s.service == Some(AUD) && s.subType == "")
  }

  /** The frameworks the chosen service offers as radio buttons. */
  function OfferedSubTypes(s: WizardState): seq<string> {
    match s.service
    case None => []
    case Some(c) => SubTypeIds(c)
  }

  /** The effect of one event. */
  function Step(s: WizardState, e: Event): (t: WizardState)
    ensures e.Back? ==> t == s.(step := if s.step - 1 > 1 then s.step - 1 else 1)
    ensures e.Next? ==> t.step == (if s.step < 3 && !NextDisabled(s) then s.step + 1 else s.step)
    ensures e.ChooseService? && s.step == 2 ==> t.service == Some(e.chosen) && t.subType == ""
    ensures !e.Back? && !e.Next? ==> t.step == s.step
  {
    match e
    case Back => s.(step := if s.step - 1 > 1 then s.step - 1 else 1)
    case Next => if s.step < 3 && !NextDisabled(s) then s.(step := s.step + 1) else s
    case ChooseClient(id) => if s.step == 1 then s.(client := id) else s
    case EditCode(code) => if s.step == 1 then s.(code := code) else s
    case ChooseService(c) => if s.step == 2 then s.(service := Some(c), subType := "") else s
    case ChooseSubType(id) =>
      if s.step == 2 && id in OfferedSubTypes(s) then s.(subType := id) else s
    case SetStartDate(d) => if s.step == 3 then s.(input := s.input.(startDate := d)) else s
    case SetEndDate(d) => if s.step == 3 then s.(input := s.input.(endDate := d)) else s
    case SetPages(n) =>
      if s.step == 3 && s.service == Some(AC) then s.(input := s.input.(pages := n)) else s
    case SetFolders(n) =>
      if s.step == 3 && s.service == Some(AC) then s.(input := s.input.(folders := n)) else s
    case SetScope(text) =>
      if s.step == 3 && s.service != Some(AC) then s.(input := s.input.(scopeDetails := text)) else s
    case SetManualPrice(v) =>
      if s.step == 3 && s.service != Some(AC) then s.(input := s.input.(manualPrice := v)) else s
    case CodeSuggested(year, month0, count) =>
      s.(code := SuggestCode(year, month0, s.service, count))
  }

  /** The state after a sequence of events. */
  function Run(s: WizardState, events: seq<Event>): WizardState
    decreases |events|
  {
    if |events| == 0 then s else Run(Step(s, events[0]), events[1..])
  }

  /** What the wizard guarantees at every step: the step is 1, 2 or 3;
      past step 1 a client is chosen; on step 3 a service is chosen and,
      for the general audit, a framework; a chosen framework is one the
      chosen service offers. */
  predicate Valid(s: WizardState) {
    && 1 <= s.step <= 3
    && (s.step >= 2 ==> s.client != "")
    && (s.step == 3 ==> s.service.Some? && (s.service == Some(AUD) ==> s.subType != ""))
    && (s.subType != "" ==> s.subType in OfferedSubTypes(s))
  }

  lemma InitialStateValid()
    ensures Valid(InitialState)
  {
  }

  /** Every event keeps the guarantees. */
  lemma StepPreservesValid(s: WizardState, e: Event)
    requires Valid(s)
    ensures Valid(Step(s, e))
  {
    if e.ChooseSubType? && s.step == 2 && e.subTypeId in OfferedSubTypes(s) {
      var t := Step(s, e);
      assert t.subType == e.subTypeId && t.service == s.service;
    }
  }

  /** Any sequence of events from a valid state ends in a valid state. */
  lemma {:induction false} RunPreservesValid(s: WizardState, events: seq<Event>)
    requires Valid(s)
    ensures Valid(Run(s, events))
    decreases |events|
  {
    if |events| > 0 {
      StepPreservesValid(s, events[0]);
      RunPreservesValid(Step(s, events[0]), events[1..]);
    }
  }

  /** Whatever the user does, the wizard only ever shows steps 1 to 3, and
      reaching step 3 means a client and a service have been chosen. */
  lemma ReachableStatesValid(events: seq<Event>)
    ensures var s := Run(InitialState, events);
      && 1 <= s.step <= 3
      && (s.step == 3 ==> s.client != "" && s.service.Some?)
  {
    InitialStateValid();
    RunPreservesValid(InitialState, events);
  }

  // ---- Price recomputation --------------------------------------------------

  /** A computed price together with the duration it was computed for. */
  datatype PricedResult = PricedResult(price: PricingResult, duration: int)

  /** The price shown for the current inputs: only the condominium audit
      with a positive page count and both dates filled in gets one; the
      duration is the month count between the two dates, which
      `parseDate` turns into calendar fields. */
  function RecomputePrice(service: Option<ServiceCode>, input: InputData,
                          parseDate: string -> CalendarDate): (r: Option<PricedResult>)
    ensures r.Some? <==>
      service == Some(AC) && input.pages > 0 && input.startDate != "" && input.endDate != ""
    ensures r.Some? ==>
      && r.value.duration == MonthsDiff(parseDate(input.startDate), parseDate(input.endDate))
      && r.value.price == CalculateComplexPrice(input.pages, input.folders, r.value.duration)
  {
    if service == Some(AC) && input.pages > 0 && input.startDate != "" && input.endDate != "" then
      var duration := MonthsDiff(parseDate(input.startDate), parseDate(input.endDate));
      Some(PricedResult(CalculateComplexPrice(input.pages, input.folders, duration), duration))
    else None
  }

  /** A computed price never has a negative total or negative savings, and
      its total never exceeds the undiscounted one, because the month count
      is never negative. */
  lemma ComputedPriceNonNegative(service: Option<ServiceCode>, input: InputData,
                                 parseDate: string -> CalendarDate)
    ensures var r := RecomputePrice(service, input, parseDate);
      r.Some? ==>
        && r.value.duration >= 0
        && r.value.price.totalValue >= 0.0
        && r.value.price.savings >= 0.0
        && r.value.price.totalValue <= r.value.price.baseMonthlyRaw * (r.value.duration as real)
  {
  }

  /** The scope text and the manual price play no part in the computed
      price. */
  lemma PriceIgnoresManualInputs(service: Option<ServiceCode>, input: InputData, scope: string,
                                 manual: real, parseDate: string -> CalendarDate)
    ensures RecomputePrice(service, input, parseDate)
      == RecomputePrice(service, input.(scopeDetails := scope, manualPrice := manual), parseDate)
  {
  }

  // ---- Finishing ------------------------------------------------------------

  /** The proposal row the wizard stores. */
  datatype ProposalRecord = ProposalRecord(
    clientId: string,
    code: string,
    serviceType: string,
    status: string,
    input: InputData,
    subType: string,
    startDate: Option<string>,
    endDate: Option<string>,
    totalValue: real,
    baseValue: real
  )

  /** An empty date is stored as null. */
  function DateOrNull(d: string): (r: Option<string>)
    ensures r.None? <==> d == ""
    ensures r.Some? ==> r.value == d
  {
    if d == "" then None else Some(d)
  }

  /** The stored row: the computed total and monthly base when there is a
      price, otherwise the manual price as both. */
  function FinishRecord(s: WizardState, price: Option<PricedResult>): (r: ProposalRecord)
    ensures price.Some? ==>
      r.totalValue == price.value.price.totalValue && r.baseValue == price.value.price.baseMonthlyRaw
    ensures price.None? ==> r.totalValue == s.input.manualPrice && r.baseValue == s.input.manualPrice
    ensures r.startDate == DateOrNull(s.input.startDate) && r.endDate == DateOrNull(s.input.endDate)
    ensures r.status == "GENERATED"
    ensures r.clientId == s.client && r.code == s.code && r.subType == s.subType
  {
    var finalValue := if price.Some? then price.value.price.totalValue else s.input.manualPrice;
    ProposalRecord(
      s.client, s.code,
      match s.service case None => "" case Some(c) => CodeString(c),
      "GENERATED", s.input, s.subType,
      DateOrNull(s.input.startDate), DateOrNull(s.input.endDate),
      finalValue,
      if price.Some? then price.value.price.baseMonthlyRaw else finalValue)
  }

  /** The "generate" button is disabled while saving, and for the
      condominium audit while no price has been computed. */
  predicate FinishDisabled(loading: bool, s: WizardState, price: Option<PricedResult>)
    ensures !FinishDisabled(loading, s, price) ==> !loading
    ensures !FinishDisabled(loading, s, price) && s.service == Some(AC) ==>
      price.Some? && FinishRecord(s, price).totalValue == price.value.price.totalValue
    ensures !loading && (s.service != Some(AC) || price.Some?) ==> !FinishDisabled(loading, s, price)
  {
    loading || (s.service == Some(AC) && price.None?)
  }

  /** A condominium-audit proposal can only be stored with its computed
      price: the stored total is the price's total and the stored base is
      its monthly base, at least the 2026 base rate. */
  lemma AcProposalStoresComputedPrice(s: WizardState, parseDate: string -> CalendarDate)
    requires s.service == Some(AC)
    requires !FinishDisabled(false, s, RecomputePrice(s.service, s.input, parseDate))
    ensures var price := RecomputePrice(s.service, s.input, parseDate);
      var r := FinishRecord(s, price);
      && price.Some?
      && r.totalValue == price.value.price.totalValue
      && r.baseValue == price.value.price.baseMonthlyRaw
      && r.baseValue >= BaseValue2026
      && r.serviceType == "AC"
  {
  }

  /** Any other service stores the manual price as both values. */
  lemma OtherProposalStoresManualPrice(s: WizardState, parseDate: string -> CalendarDate)
    requires s.service != Some(AC)
    ensures var r := FinishRecord(s, RecomputePrice(s.service, s.input, parseDate));
      r.totalValue == s.input.manualPrice && r.baseValue == s.input.manualPrice
  {
  }
}
