/**
 * `validate_options`, identical in both GitHub scripts: every required option
 * must be present and the start date must not come after the end date.
 */
module CliOptions {
  import opened Wrappers

  /** A calendar date as a day number (`Date.parse` of YYYY-MM-DD); later dates are larger. */
  type Day = int

  /** The command-line options after parsing; an option not given is absent. */
  datatype Options = Options(
    repository: Option<string>,
    reviewer: Option<string>,
    startDate: Option<Day>,
    endDate: Option<Day>,
    token: Option<string>)

  /** The required options, in the order the error message lists them. */
  datatype Field = Repository | Reviewer | StartDate | EndDate | Token

  /** The options once every required one is present. */
  datatype Config = Config(repository: string, reviewer: string, startDate: Day, endDate: Day, token: string)

  /** Why the script exits with status 1 before any request is made. */
  datatype OptionsError = MissingFields(fields: seq<Field>) | StartAfterEnd

  predicate IsMissing(options: Options, field: Field) {
    match field
    case Repository => options.repository.None?
    case Reviewer => options.reviewer.None?
    case StartDate => options.startDate.None?
    case EndDate => options.endDate.None?
    case Token => options.token.None?
  }

  /** Every required option was given. */
  predicate Complete(options: Options) {
    && options.repository.Some? && options.reviewer.Some? && options.startDate.Some?
    && options.endDate.Some? && options.token.Some?
  }

  /** `required_fields.select { |field| options[field].nil? }`. */
  function MissingFieldsOf(options: Options): (missing: seq<Field>)
    ensures forall f :: f in missing <==> IsMissing(options, f)
    ensures forall i, j :: 0 <= i < j < |missing| ==> missing[i] != missing[j]
    ensures missing == [] <==> Complete(options)
  {
    (if options.repository.None? then [Repository] else [])
    + (if options.reviewer.None? then [Reviewer] else [])
    + (if options.startDate.None? then [StartDate] else [])
    + (if options.endDate.None? then [EndDate] else [])
    + (if options.token.None? then [Token] else [])
  }

  /**
   * `validate_options`: the missing options are reported first (the script
   * exits with status 1); with all present, a start date after the end date
   * is refused; otherwise the options are accepted as given.
   */
  function ValidateOptions(options: Options): (r: Result<Config, OptionsError>)
    ensures r.Failure? && r.error.MissingFields? <==> !Complete(options)
    ensures r.Failure? && r.error.MissingFields? ==> forall f :: f in r.error.fields <==> IsMissing(options, f)
    ensures r == Failure(StartAfterEnd) <==> Complete(options) && options.startDate.value > options.endDate.value
    ensures r.Success? <==> Complete(options) && options.startDate.value <= options.endDate.value
    ensures r.Success? ==>
      r.value == Config(options.repository.value, options.reviewer.value,
                        options.startDate.value, options.endDate.value, options.token.value)
  {
    var missing := MissingFieldsOf(options);
    if missing != [] then
      Failure(MissingFields(missing))
    else
      if options.startDate.value > options.endDate.value then Failure(StartAfterEnd)
      else Success(Config(options.repository.value, options.reviewer.value,
                          options.startDate.value, options.endDate.value, options.token.value))
  }
}
