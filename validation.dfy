/**
 * The experiment layer's input validators.  A thrown `Error` becomes a
 * `Failure` carrying a `ValidationError`, whose `Message` is the thrown text.
 */
module Validation {
  import opened Wrappers
  import opened Numbers
  import Disturbance

  datatype ValidationError =
    | NotFinite(name: string)
    | NotPositive(name: string)
    | Negative(name: string)
    | OutsideUnitInterval(name: string)
    | EmptyList(name: string)

  /** The message of the thrown error. */
  function Message(e: ValidationError): string
  {
    match e
    case NotFinite(n) => n + " must be finite"
    case NotPositive(n) => n + " must be > 0"
    case Negative(n) => n + " must be >= 0"
    case OutsideUnitInterval(n) => n + " must be between 0 and 1"
    case EmptyList(n) => n + " must not be empty"
  }

  /** `toInteger`: a finite value truncated toward zero; a non-finite one is refused. */
  function ToInteger(name: string, value: Number): (r: Result<int, ValidationError>)
    ensures r.Failure? <==> value.NonFinite?
    ensures r.Failure? ==> r.error == NotFinite(name)
    ensures r.Success? && value.value >= 0.0 ==> 0 <= r.value && r.value as real <= value.value < r.value as real + 1.0
    ensures r.Success? && value.value < 0.0 ==> r.value <= 0 && r.value as real - 1.0 < value.value <= r.value as real
  {
    if value.NonFinite? then Failure(NotFinite(name)) else Success(Trunc(value.value))
  }

  /** `toPositiveInt`: accepted exactly when the value is finite and at least 1, i.e. truncates to a positive integer. */
  function ToPositiveInt(name: string, value: Number): (r: Result<int, ValidationError>)
    ensures r.Success? <==> value.Finite? && value.value >= 1.0
    ensures r.Success? ==> r.value >= 1 && r.value == Trunc(value.value)
    ensures value.NonFinite? ==> r == Failure(NotFinite(name))
    ensures value.Finite? && value.value < 1.0 ==> r == Failure(NotPositive(name))
  {
    match ToInteger(name, value)
    case Failure(e) => Failure(e)
    case Success(n) => if n <= 0 then Failure(NotPositive(name)) else Success(n)
  }

  /** `toNonNegativeInt`: accepted exactly when the value is finite and above -1, i.e. truncates to at least 0. */
  function ToNonNegativeInt(name: string, value: Number): (r: Result<int, ValidationError>)
    ensures r.Success? <==> value.Finite? && value.value > -1.0
    ensures r.Success? ==> r.value >= 0 && r.value == Trunc(value.value)
    ensures value.NonFinite? ==> r == Failure(NotFinite(name))
    ensures value.Finite? && value.value <= -1.0 ==> r == Failure(Negative(name))
  {
    match ToInteger(name, value)
    case Failure(e) => Failure(e)
    case Success(n) => if n < 0 then Failure(Negative(name)) else Success(n)
  }

  /** `toUnitInterval`: a finite value in [0, 1] is returned unchanged; anything else is refused. */
  function ToUnitInterval(name: string, value: Number): (r: Result<real, ValidationError>)
    ensures r.Success? <==> value.Finite? && 0.0 <= value.value <= 1.0
    ensures r.Success? ==> r.value == value.value
    ensures value.NonFinite? ==> r == Failure(NotFinite(name))
    ensures value.Finite? && !(0.0 <= value.value <= 1.0) ==> r == Failure(OutsideUnitInterval(name))
  {
    if value.NonFinite? then Failure(NotFinite(name))
    else if value.value < 0.0 || value.value > 1.0 then Failure(OutsideUnitInterval(name))
    else Success(value.value)
  }

  /**
   * `toPhaseOffset`: `value % 1` (JavaScript's remainder, which keeps the sign of
   * the value) moved into [0, 1); this is the fractional part `value - floor(value)`
   * and the same offset the engine normalizes to.
   */
  function ToPhaseOffset(name: string, value: Number): (r: Result<real, ValidationError>)
    ensures r.Success? <==> value.Finite?
    ensures value.NonFinite? ==> r == Failure(NotFinite(name))
    ensures r.Success? ==> 0.0 <= r.value < 1.0
    ensures r.Success? ==> r.value == Disturbance.NormalizedPhaseOffset(value)
  {
    if value.NonFinite? then Failure(NotFinite(name))
    else
      var wrapped := value.value - Trunc(value.value) as real;
      Success(if wrapped < 0.0 then wrapped + 1.0 else wrapped)
  }

  /** The decimal digit of `d`. */
  function Digit(d: nat): char
    requires d < 10
  {
    "0123456789"[d]
  }

  /** `String(n)` for a natural number: its decimal digits, most significant first. */
  function NatToString(n: nat): (s: string)
    ensures |s| > 0
    ensures forall i :: 0 <= i < |s| ==> '0' <= s[i] <= '9'
    ensures s[0] == '0' ==> n == 0
  {
    if n < 10 then [Digit(n)] else NatToString(n / 10) + [Digit(n % 10)]
  }

  /** The number a string of decimal digits denotes. */
  function DigitsValue(s: string): nat
    requires forall i :: 0 <= i < |s| ==> '0' <= s[i] <= '9'
  {
    if |s| == 0 then 0
    else DigitsValue(s[..|s| - 1]) * 10 + (s[|s| - 1] as int - '0' as int)
  }

  /** The decimal rendering denotes the number rendered, so distinct indices get distinct names. */
  lemma {:induction false} NatToStringValue(n: nat)
    ensures DigitsValue(NatToString(n)) == n
  {
    if n >= 10 {
      NatToStringValue(n / 10);
      var s := NatToString(n);
      assert s[..|s| - 1] == NatToString(n / 10);
    }
  }

  /** The name an element of a list is reported under: `${name}[${index}]`. */
  function ItemName(name: string, index: nat): string
  {
    name + "[" + NatToString(index) + "]"
  }

  /** `values.map((value, index) => validate(ItemName(name, index), value))` from index `i` on; the first refusal wins. */
  function ValidateFrom<T>(name: string, values: seq<Number>, i: nat,
                           validate: (string, Number) -> Result<T, ValidationError>)
    : Result<seq<T>, ValidationError>
    requires i <= |values|
    decreases |values| - i
  {
    if i == |values| then Success([])
    else
      match validate(ItemName(name, i), values[i])
      case Failure(e) => Failure(e)
      case Success(v) =>
        match ValidateFrom(name, values, i + 1, validate)
        case Failure(e) => Failure(e)
        case Success(rest) => Success([v] + rest)
  }

  /**
   * Mapping from `i` succeeds iff every element from `i` on is accepted, and then
   * yields the accepted values in order; otherwise it reports the error of the
   * first element refused.
   */
  lemma {:induction false} ValidateFromSpec<T>(name: string, values: seq<Number>, i: nat,
                                               validate: (string, Number) -> Result<T, ValidationError>)
    requires i <= |values|
    ensures var r := ValidateFrom(name, values, i, validate);
            r.Success? <==> forall j :: i <= j < |values| ==> validate(ItemName(name, j), values[j]).Success?
    ensures var r := ValidateFrom(name, values, i, validate);
            r.Success? ==> |r.value| == |values| - i
                           && forall j :: i <= j < |values| ==> r.value[j - i] == validate(ItemName(name, j), values[j]).value
    ensures var r := ValidateFrom(name, values, i, validate);
            r.Failure? ==> exists k :: && i <= k < |values|
                                       && validate(ItemName(name, k), values[k]) == Failure(r.error)
                                       && forall j :: i <= j < k ==> validate(ItemName(name, j), values[j]).Success?
  {
    ValidateFromAccepts(name, values, i, validate);
    ValidateFromValues(name, values, i, validate);
    ValidateFromRefuses(name, values, i, validate);
  }

  /** Success from `i` on means every element was accepted. */
  lemma {:induction false} ValidateFromAccepts<T>(name: string, values: seq<Number>, i: nat,
                                                  validate: (string, Number) -> Result<T, ValidationError>)
    requires i <= |values|
    ensures ValidateFrom(name, values, i, validate).Success?
            <==> forall j :: i <= j < |values| ==> validate(ItemName(name, j), values[j]).Success?
    decreases |values| - i
  {
    if i < |values| && validate(ItemName(name, i), values[i]).Success? {
      ValidateFromAccepts(name, values, i + 1, validate);
    }
  }

  /** A success from `i` on holds the accepted values, in order. */
  lemma {:induction false} ValidateFromValues<T>(name: string, values: seq<Number>, i: nat,
                                                 validate: (string, Number) -> Result<T, ValidationError>)
    requires i <= |values|
    ensures var r := ValidateFrom(name, values, i, validate);
            r.Success? ==> && (forall j :: i <= j < |values| ==> validate(ItemName(name, j), values[j]).Success?)
                           && |r.value| == |values| - i
                           && forall j :: i <= j < |values| ==> r.value[j - i] == validate(ItemName(name, j), values[j]).value
    decreases |values| - i
  {
    ValidateFromAccepts(name, values, i, validate);
    if i < |values| && validate(ItemName(name, i), values[i]).Success? {
      ValidateFromValues(name, values, i + 1, validate);
    }
  }

  /** A failure from `i` on is the error of the first element refused. */
  lemma {:induction false} ValidateFromRefuses<T>(name: string, values: seq<Number>, i: nat,
                                                  validate: (string, Number) -> Result<T, ValidationError>)
    requires i <= |values|
    ensures var r := ValidateFrom(name, values, i, validate);
            r.Failure? ==> exists k :: && i <= k < |values|
                                       && validate(ItemName(name, k), values[k]) == Failure(r.error)
                                       && forall j :: i <= j < k ==> validate(ItemName(name, j), values[j]).Success?
    decreases |values| - i
  {
    if i < |values| && validate(ItemName(name, i), values[i]).Success? {
      ValidateFromRefuses(name, values, i + 1, validate);
      var r := ValidateFrom(name, values, i, validate);
      var rest := ValidateFrom(name, values, i + 1, validate);
      if r.Failure? {
        var k :| && i + 1 <= k < |values|
                 && validate(ItemName(name, k), values[k]) == Failure(rest.error)
                 && forall j :: i + 1 <= j < k ==> validate(ItemName(name, j), values[j]).Success?;
        assert validate(ItemName(name, k), values[k]) == Failure(r.error);
      }
    }
  }

  /** The list validators: an empty list is refused, otherwise every element is validated under its indexed name. */
  function ValidateList<T>(name: string, values: seq<Number>, validate: (string, Number) -> Result<T, ValidationError>)
    : Result<seq<T>, ValidationError>
  {
    if |values| == 0 then Failure(EmptyList(name)) else ValidateFrom(name, values, 0, validate)
  }

  /** `toPositiveIntList`: a non-empty list of values that each truncate to a positive integer. */
  function ToPositiveIntList(name: string, values: seq<Number>): (r: Result<seq<int>, ValidationError>)
    ensures |values| == 0 ==> r == Failure(EmptyList(name))
    ensures r.Success? <==> |values| > 0 && forall j :: 0 <= j < |values| ==> values[j].Finite? && values[j].value >= 1.0
    ensures r.Success? ==> |r.value| == |values| && forall j :: 0 <= j < |values| ==> r.value[j] == Trunc(values[j].value) >= 1
  {
    ValidateFromSpec(name, values, 0, ToPositiveInt);
    ValidateList(name, values, ToPositiveInt)
  }

  /** `toUnitIntervalList`: a non-empty list of finite values in [0, 1], returned unchanged. */
  function ToUnitIntervalList(name: string, values: seq<Number>): (r: Result<seq<real>, ValidationError>)
    ensures |values| == 0 ==> r == Failure(EmptyList(name))
    ensures r.Success? <==> |values| > 0 && forall j :: 0 <= j < |values| ==> values[j].Finite? && 0.0 <= values[j].value <= 1.0
    ensures r.Success? ==> |r.value| == |values| && forall j :: 0 <= j < |values| ==> r.value[j] == values[j].value
  {
    ValidateFromSpec(name, values, 0, ToUnitInterval);
    ValidateList(name, values, ToUnitInterval)
  }

  /** `toPhaseOffsetList`: a non-empty list of finite values, each wrapped into [0, 1). */
  function ToPhaseOffsetList(name: string, values: seq<Number>): (r: Result<seq<real>, ValidationError>)
    ensures |values| == 0 ==> r == Failure(EmptyList(name))
    ensures r.Success? <==> |values| > 0 && forall j :: 0 <= j < |values| ==> values[j].Finite?
    ensures r.Success? ==> |r.value| == |values| && forall j :: 0 <= j < |values| ==> 0.0 <= r.value[j] < 1.0
    ensures r.Success? ==> forall j :: 0 <= j < |values| ==> r.value[j] == Disturbance.NormalizedPhaseOffset(values[j])
  {
    ValidateFromSpec(name, values, 0, ToPhaseOffset);
    var r := ValidateList(name, values, ToPhaseOffset);
    assert r.Success? ==> forall j :: 0 <= j < |values| ==> r.value[j] == ToPhaseOffset(ItemName(name, j), values[j]).value;
    r
  }

  /** `RunExperimentInput` without the simulation options; absent optional fields are `None`. */
  datatype ExperimentInput = ExperimentInput(
    runs: Number,
    steps: Number,
    analyticsWindow: Number,
    seed: Number,
    seedStep: Option<Number>,
    stopWhenExtinct: Option<bool>)

  datatype ExperimentConfig = ExperimentConfig(
    runs: int,
    steps: int,
    analyticsWindow: int,
    seed: int,
    seedStep: int,
    stopWhenExtinct: bool)

  function OrElse<T>(o: Option<T>, fallback: T): T
  {
    if o.Some? then o.value else fallback
  }

  /**
   * `normalizeConfig`: runs, steps, analyticsWindow and seedStep (default 1)
   * must be positive integers, the seed any finite number; the first refusal
   * in that order is reported.  Extinction stops a run unless told otherwise.
   */
  function NormalizeConfig(input: ExperimentInput): (r: Result<ExperimentConfig, ValidationError>)
    ensures r.Success? <==> && ToPositiveInt("runs", input.runs).Success?
                            && ToPositiveInt("steps", input.steps).Success?
                            && ToPositiveInt("analyticsWindow", input.analyticsWindow).Success?
                            && input.seed.Finite?
                            && ToPositiveInt("seedStep", OrElse(input.seedStep, Finite(1.0))).Success?
    ensures r.Success? ==> r.value.runs >= 1 && r.value.steps >= 1 && r.value.analyticsWindow >= 1 && r.value.seedStep >= 1
    ensures r.Success? ==> r.value == ExperimentConfig(Trunc(input.runs.value), Trunc(input.steps.value),
                                                       Trunc(input.analyticsWindow.value), Trunc(input.seed.value),
                                                       Trunc(OrElse(input.seedStep, Finite(1.0)).value),
                                                       OrElse(input.stopWhenExtinct, true))
    ensures r.Success? && input.seedStep.None? ==> r.value.seedStep == 1
    ensures ToPositiveInt("runs", input.runs).Failure? ==> r == Failure(ToPositiveInt("runs", input.runs).error)
    ensures && ToPositiveInt("runs", input.runs).Success?
            && ToPositiveInt("steps", input.steps).Failure?
            ==> r == Failure(ToPositiveInt("steps", input.steps).error)
    ensures && ToPositiveInt("runs", input.runs).Success?
            && ToPositiveInt("steps", input.steps).Success?
            && ToPositiveInt("analyticsWindow", input.analyticsWindow).Failure?
            ==> r == Failure(ToPositiveInt("analyticsWindow", input.analyticsWindow).error)
    ensures && ToPositiveInt("runs", input.runs).Success?
            && ToPositiveInt("steps", input.steps).Success?
            && ToPositiveInt("analyticsWindow", input.analyticsWindow).Success?
            && input.seed.NonFinite?
            ==> r == Failure(NotFinite("seed"))
    ensures && ToPositiveInt("runs", input.runs).Success?
            && ToPositiveInt("steps", input.steps).Success?
            && ToPositiveInt("analyticsWindow", input.analyticsWindow).Success?
            && input.seed.Finite?
            && ToPositiveInt("seedStep", OrElse(input.seedStep, Finite(1.0))).Failure?
            ==> r == Failure(ToPositiveInt("seedStep", OrElse(input.seedStep, Finite(1.0))).error)
  {
    match ToPositiveInt("runs", input.runs)
    case Failure(e) => Failure(e)
    case Success(runs) =>
      match ToPositiveInt("steps", input.steps)
      case Failure(e) => Failure(e)
      case Success(steps) =>
        match ToPositiveInt("analyticsWindow", input.analyticsWindow)
        case Failure(e) => Failure(e)
        case Success(analyticsWindow) =>
          match ToInteger("seed", input.seed)
          case Failure(e) => Failure(e)
          case Success(seed) =>
            match ToPositiveInt("seedStep", OrElse(input.seedStep, Finite(1.0)))
            case Failure(e) => Failure(e)
            case Success(seedStep) =>
              Success(ExperimentConfig(runs, steps, analyticsWindow, seed, seedStep,
                                       OrElse(input.stopWhenExtinct, true)))
  }

  /** `RunDisturbanceGridStudyInput` without the simulation options. */
  datatype GridStudyInput = GridStudyInput(
    base: ExperimentInput,
    intervals: seq<Number>,
    amplitudes: seq<Number>,
    phases: Option<seq<Number>>,
    localRadius: Option<Number>,
    localRefugiaFraction: Option<Number>)

  datatype GridStudyConfig = GridStudyConfig(
    base: ExperimentConfig,
    intervals: seq<int>,
    amplitudes: seq<real>,
    phases: seq<real>,
    localRadius: int,
    localRefugiaFraction: real)

  /**
   * `normalizeDisturbanceGridStudyConfig`: the shared settings first, then the
   * three axis lists (phases default to `[0]`), the local radius (default 2) and
   * the local refugia fraction (default 0.35).
   */
  function NormalizeGridStudyConfig(input: GridStudyInput): (r: Result<GridStudyConfig, ValidationError>)
    ensures r.Success? <==> && NormalizeConfig(input.base).Success?
                            && ToPositiveIntList("intervals", input.intervals).Success?
                            && ToUnitIntervalList("amplitudes", input.amplitudes).Success?
                            && ToPhaseOffsetList("phases", OrElse(input.phases, [Finite(0.0)])).Success?
                            && ToNonNegativeInt("localRadius", OrElse(input.localRadius, Finite(2.0))).Success?
                            && ToUnitInterval("localRefugiaFraction",
                                              OrElse(input.localRefugiaFraction, Finite(0.35))).Success?
    ensures r.Success? ==>
      && r.value.base == NormalizeConfig(input.base).value
      && r.value.intervals == ToPositiveIntList("intervals", input.intervals).value
      && r.value.amplitudes == ToUnitIntervalList("amplitudes", input.amplitudes).value
      && r.value.phases == ToPhaseOffsetList("phases", OrElse(input.phases, [Finite(0.0)])).value
      && r.value.localRadius == Trunc(OrElse(input.localRadius, Finite(2.0)).value)
      && r.value.localRefugiaFraction == OrElse(input.localRefugiaFraction, Finite(0.35)).value
    ensures r.Success? ==> && NormalizeConfig(input.base).Success?
                           && |r.value.intervals| == |input.intervals| > 0
                           && |r.value.amplitudes| == |input.amplitudes| > 0
                           && |r.value.phases| > 0
                           && (forall j :: 0 <= j < |r.value.intervals| ==> r.value.intervals[j] >= 1)
                           && (forall j :: 0 <= j < |r.value.amplitudes| ==> 0.0 <= r.value.amplitudes[j] <= 1.0)
                           && (forall j :: 0 <= j < |r.value.phases| ==> 0.0 <= r.value.phases[j] < 1.0)
                           && r.value.localRadius >= 0
                           && 0.0 <= r.value.localRefugiaFraction <= 1.0
    ensures r.Success? && input.phases.None? ==> r.value.phases == [0.0]
    ensures r.Success? && input.localRadius.None? ==> r.value.localRadius == 2
    ensures r.Success? && input.localRefugiaFraction.None? ==> r.value.localRefugiaFraction == 0.35
    ensures NormalizeConfig(input.base).Failure? ==> r == Failure(NormalizeConfig(input.base).error)
    ensures && NormalizeConfig(input.base).Success?
            && ToPositiveIntList("intervals", input.intervals).Failure?
            ==> r == Failure(ToPositiveIntList("intervals", input.intervals).error)
    ensures && NormalizeConfig(input.base).Success?
            && ToPositiveIntList("intervals", input.intervals).Success?
            && ToUnitIntervalList("amplitudes", input.amplitudes).Failure?
            ==> r == Failure(ToUnitIntervalList("amplitudes", input.amplitudes).error)
    ensures && NormalizeConfig(input.base).Success?
            && ToPositiveIntList("intervals", input.intervals).Success?
            && ToUnitIntervalList("amplitudes", input.amplitudes).Success?
            && ToPhaseOffsetList("phases", OrElse(input.phases, [Finite(0.0)])).Failure?
            ==> r == Failure(ToPhaseOffsetList("phases", OrElse(input.phases, [Finite(0.0)])).error)
    ensures && NormalizeConfig(input.base).Success?
            && ToPositiveIntList("intervals", input.intervals).Success?
            && ToUnitIntervalList("amplitudes", input.amplitudes).Success?
            && ToPhaseOffsetList("phases", OrElse(input.phases, [Finite(0.0)])).Success?
            && ToNonNegativeInt("localRadius", OrElse(input.localRadius, Finite(2.0))).Failure?
            ==> r == Failure(ToNonNegativeInt("localRadius", OrElse(input.localRadius, Finite(2.0))).error)
    ensures && NormalizeConfig(input.base).Success?
            && ToPositiveIntList("intervals", input.intervals).Success?
            && ToUnitIntervalList("amplitudes", input.amplitudes).Success?
            && ToPhaseOffsetList("phases", OrElse(input.phases, [Finite(0.0)])).Success?
            && ToNonNegativeInt("localRadius", OrElse(input.localRadius, Finite(2.0))).Success?
            && ToUnitInterval("localRefugiaFraction", OrElse(input.localRefugiaFraction, Finite(0.35))).Failure?
            ==> r == Failure(ToUnitInterval("localRefugiaFraction",
                                            OrElse(input.localRefugiaFraction, Finite(0.35))).error)
  {
    match NormalizeConfig(input.base)
    case Failure(e) => Failure(e)
    case Success(base) =>
      match ToPositiveIntList("intervals", input.intervals)
      case Failure(e) => Failure(e)
      case Success(intervals) =>
        match ToUnitIntervalList("amplitudes", input.amplitudes)
        case Failure(e) => Failure(e)
        case Success(amplitudes) =>
          match ToPhaseOffsetList("phases", OrElse(input.phases, [Finite(0.0)]))
          case Failure(e) => Failure(e)
          case Success(phases) =>
            match ToNonNegativeInt("localRadius", OrElse(input.localRadius, Finite(2.0)))
            case Failure(e) => Failure(e)
            case Success(localRadius) =>
              match ToUnitInterval("localRefugiaFraction", OrElse(input.localRefugiaFraction, Finite(0.35)))
              case Failure(e) => Failure(e)
              case Success(localRefugiaFraction) =>
                Success(GridStudyConfig(base, intervals, amplitudes, phases, localRadius, localRefugiaFraction))
  }

  /** A one-element list is validated as its element under the name `name[0]`. */
  lemma ValidateOne<T>(name: string, value: Number, validate: (string, Number) -> Result<T, ValidationError>)
    ensures ValidateList(name, [value], validate)
            == match validate(name + "[0]", value)
               case Failure(e) => Failure(e)
               case Success(v) => Success([v])
  {
    assert ItemName(name, 0) == name + "[0]";
    assert ValidateFrom(name, [value], 1, validate) == Success([]);
    match validate(name + "[0]", value)
    case Failure(e) =>
    case Success(v) =>
      assert [v] + [] == [v];
  }

  /** The shared settings of the documented grid examples. */
  function ExampleBase(): ExperimentInput
  {
    ExperimentInput(Finite(1.0), Finite(8.0), Finite(4.0), Finite(3.0), None, None)
  }

  lemma ExampleBaseAccepted()
    ensures NormalizeConfig(ExampleBase()) == Success(ExperimentConfig(1, 8, 4, 3, 1, true))
  {
  }

  /** The documented refusals of grid inputs; `Message` renders each as the documented text. */
  lemma EmptyIntervalsRefused()
    ensures NormalizeGridStudyConfig(GridStudyInput(ExampleBase(), [], [Finite(0.2)], None, None, None))
            == Failure(EmptyList("intervals"))
  {
    ExampleBaseAccepted();
  }

  lemma AmplitudeOutsideUnitIntervalRefused()
    ensures NormalizeGridStudyConfig(GridStudyInput(ExampleBase(), [Finite(6.0)], [Finite(1.2)], None, None, None))
            == Failure(OutsideUnitInterval("amplitudes[0]"))
  {
    ExampleBaseAccepted();
    ValidateOne("intervals", Finite(6.0), ToPositiveInt);
    ValidateOne("amplitudes", Finite(1.2), ToUnitInterval);
    assert "amplitudes" + "[0]" == "amplitudes[0]";
  }

  lemma NegativeRadiusRefused()
    ensures NormalizeGridStudyConfig(GridStudyInput(ExampleBase(), [Finite(6.0)], [Finite(0.2)], None,
                                                    Some(Finite(-1.0)), None))
            == Failure(Negative("localRadius"))
  {
    ExampleBaseAccepted();
    ValidateOne("intervals", Finite(6.0), ToPositiveInt);
    ValidateOne("amplitudes", Finite(0.2), ToUnitInterval);
    ValidateOne("phases", Finite(0.0), ToPhaseOffset);
  }

  lemma EmptyPhasesRefused()
    ensures NormalizeGridStudyConfig(GridStudyInput(ExampleBase(), [Finite(6.0)], [Finite(0.2)], Some([]), None, None))
            == Failure(EmptyList("phases"))
  {
    ExampleBaseAccepted();
    ValidateOne("intervals", Finite(6.0), ToPositiveInt);
    ValidateOne("amplitudes", Finite(0.2), ToUnitInterval);
  }

  lemma NonFinitePhaseRefused()
    ensures NormalizeGridStudyConfig(GridStudyInput(ExampleBase(), [Finite(6.0)], [Finite(0.2)], Some([NonFinite]),
                                                    None, None))
            == Failure(NotFinite("phases[0]"))
  {
    ExampleBaseAccepted();
    ValidateOne("intervals", Finite(6.0), ToPositiveInt);
    ValidateOne("amplitudes", Finite(0.2), ToUnitInterval);
    ValidateOne("phases", NonFinite, ToPhaseOffset);
    assert "phases" + "[0]" == "phases[0]";
  }
}
