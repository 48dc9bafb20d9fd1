/** The request body of `POST /works` and its field constraints
    (`app/schemas/work.py`), checked before the route runs. */
module WorkSchema {
  import opened Wrappers
  import opened Ledger

  /** The body as sent; `currency` may be omitted. */
  datatype WorkCreateInput = WorkCreateInput(
    title: string,
    sprintName: string,
    startDate: string,
    endDate: string,
    hourlyRateCents: int,
    currency: Option<string>)

  /** The body once validated, with the currency defaulted. */
  datatype WorkCreateRequest = WorkCreateRequest(
    title: string,
    sprintName: string,
    startDate: string,
    endDate: string,
    hourlyRateCents: int,
    currency: string)

  const DefaultCurrency: string := "BRL"
  const MaxHourlyRateCents: int := 10_000_000

  predicate TitleOk(s: string) { 1 <= |s| <= 255 }
  predicate SprintNameOk(s: string) { 1 <= |s| <= 100 }
  predicate DateOk(s: string) { |s| == 10 }
  predicate RateOk(n: int) { 0 <= n <= MaxHourlyRateCents }
  predicate CurrencyOk(c: Option<string>) { c.None? || 3 <= |c.value| <= 10 }

  /** Every constraint of the request model holds. */
  predicate ValidInput(input: WorkCreateInput) {
    && TitleOk(input.title)
    && SprintNameOk(input.sprintName)
    && DateOk(input.startDate)
    && DateOk(input.endDate)
    && RateOk(input.hourlyRateCents)
    && CurrencyOk(input.currency)
  }

  /** The field when its check failed, nothing otherwise. */
  function FieldIf(failed: bool, field: RequestField): seq<RequestField> {
    if failed then [field] else []
  }

  /** The fields whose constraint fails, in declaration order: each failing
      field is named, and no other. */
  function FailedFields(input: WorkCreateInput): (fs: seq<RequestField>)
    ensures |fs| == 0 <==> ValidInput(input)
    ensures Title in fs <==> !TitleOk(input.title)
    ensures SprintName in fs <==> !SprintNameOk(input.sprintName)
    ensures StartDate in fs <==> !DateOk(input.startDate)
    ensures EndDate in fs <==> !DateOk(input.endDate)
    ensures HourlyRateCents in fs <==> !RateOk(input.hourlyRateCents)
    ensures Currency in fs <==> !CurrencyOk(input.currency)
  {
    FailedNames(input) + FailedAmounts(input)
  }

  /** The failing fields among title, sprint name and the two dates. */
  function FailedNames(input: WorkCreateInput): (fs: seq<RequestField>)
    ensures |fs| == 0 <==> TitleOk(input.title) && SprintNameOk(input.sprintName)
                           && DateOk(input.startDate) && DateOk(input.endDate)
    ensures Title in fs <==> !TitleOk(input.title)
    ensures SprintName in fs <==> !SprintNameOk(input.sprintName)
    ensures StartDate in fs <==> !DateOk(input.startDate)
    ensures EndDate in fs <==> !DateOk(input.endDate)
    ensures HourlyRateCents !in fs && Currency !in fs
  {
    FailedTexts(input) + FailedDates(input)
  }

  /** The failing fields among title and sprint name. */
  function FailedTexts(input: WorkCreateInput): (fs: seq<RequestField>)
    ensures |fs| == 0 <==> TitleOk(input.title) && SprintNameOk(input.sprintName)
    ensures Title in fs <==> !TitleOk(input.title)
    ensures SprintName in fs <==> !SprintNameOk(input.sprintName)
    ensures StartDate !in fs && EndDate !in fs && HourlyRateCents !in fs && Currency !in fs
  {
    FieldIf(!TitleOk(input.title), Title) + FieldIf(!SprintNameOk(input.sprintName), SprintName)
  }

  /** The failing fields among the two dates. */
  function FailedDates(input: WorkCreateInput): (fs: seq<RequestField>)
    ensures |fs| == 0 <==> DateOk(input.startDate) && DateOk(input.endDate)
    ensures StartDate in fs <==> !DateOk(input.startDate)
    ensures EndDate in fs <==> !DateOk(input.endDate)
    ensures Title !in fs && SprintName !in fs && HourlyRateCents !in fs && Currency !in fs
  {
    FieldIf(!DateOk(input.startDate), StartDate) + FieldIf(!DateOk(input.endDate), EndDate)
  }

  /** The failing fields among rate and currency. */
  function FailedAmounts(input: WorkCreateInput): (fs: seq<RequestField>)
    ensures |fs| == 0 <==> RateOk(input.hourlyRateCents) && CurrencyOk(input.currency)
    ensures HourlyRateCents in fs <==> !RateOk(input.hourlyRateCents)
    ensures Currency in fs <==> !CurrencyOk(input.currency)
    ensures Title !in fs && SprintName !in fs && StartDate !in fs && EndDate !in fs
  {
    FieldIf(!RateOk(input.hourlyRateCents), HourlyRateCents)
    + FieldIf(!CurrencyOk(input.currency), Currency)
  }

  /** Validation: on success the request carries the input's fields verbatim
      and the currency "BRL" when none was sent; on failure a 422 naming exactly
      the fields whose constraint failed, in declaration order. */
  function ValidateWorkCreate(input: WorkCreateInput): (r: Result<WorkCreateRequest, HttpError>)
    ensures r.Success? <==> ValidInput(input)
    ensures r.Success? ==>
              && r.value.title == input.title
              && r.value.sprintName == input.sprintName
              && r.value.startDate == input.startDate
              && r.value.endDate == input.endDate
              && r.value.hourlyRateCents == input.hourlyRateCents
              && r.value.currency == (if input.currency.Some? then input.currency.value else DefaultCurrency)
    ensures r.Failure? ==> r.error.Unprocessable? && |r.error.fields| >= 1
    ensures r.Failure? ==> (Title in r.error.fields <==> !TitleOk(input.title))
    ensures r.Failure? ==> (SprintName in r.error.fields <==> !SprintNameOk(input.sprintName))
    ensures r.Failure? ==> (StartDate in r.error.fields <==> !DateOk(input.startDate))
    ensures r.Failure? ==> (EndDate in r.error.fields <==> !DateOk(input.endDate))
    ensures r.Failure? ==> (HourlyRateCents in r.error.fields <==> !RateOk(input.hourlyRateCents))
    ensures r.Failure? ==> (Currency in r.error.fields <==> !CurrencyOk(input.currency))
  {
    if ValidInput(input) then
      Success(WorkCreateRequest(input.title, input.sprintName, input.startDate, input.endDate,
                                input.hourlyRateCents, input.currency.GetOr(DefaultCurrency)))
    else
      Failure(Unprocessable(FailedFields(input)))
  }
}
