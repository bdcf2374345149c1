/**
 * The parameters of the video/audio effect chain. Doubles are modelled with their special
 * values, because the range checks are comparisons, and every comparison with NaN is false.
 */
module Effects {
  import opened Wrappers

  /** An IEEE double: a finite value, NaN, or an infinity. */
  datatype Double = Finite(x: real) | NaN | PositiveInfinity | NegativeInfinity

  /** Java's `a < b` on doubles. */
  predicate Less(a: Double, b: Double)
  {
    match (a, b)
    case (Finite(x), Finite(y)) => x < y
    case (NegativeInfinity, Finite(_)) => true
    case (NegativeInfinity, PositiveInfinity) => true
    case (Finite(_), PositiveInfinity) => true
    case _ => false
  }

  /** The check `v < lo || v > hi` of the constructor: true when the value would be rejected. */
  predicate OutOfRange(v: Double, lo: real, hi: real)
  {
    Less(v, Finite(lo)) || Less(Finite(hi), v)
  }

  /** `AudioUtils.isNaN`: NaN or either infinity. */
  predicate NotANumber(v: Double)
  {
    v.NaN? || v.PositiveInfinity? || v.NegativeInfinity?
  }

  /** The three colour settings and the opacity pass their checks exactly when the comparisons say so. */
  lemma OutOfRangeMeaning(v: Double, lo: real, hi: real)
    requires lo <= hi
    ensures OutOfRange(v, lo, hi) <==> v.PositiveInfinity? || v.NegativeInfinity? || (v.Finite? && (v.x < lo || v.x > hi))
    ensures v.NaN? ==> !OutOfRange(v, lo, hi)
  {
  }

  datatype EffectParameters = EffectParameters(
    brightness: Double, contrast: Double, saturation: Double, lutPath: Option<string>,
    titleText: Option<string>, titleOpacity: Double, audioDuckingDb: Double)

  /** The compact constructor's checks, in order; each failure is an illegal argument. */
  function NewEffectParameters(brightness: Double, contrast: Double, saturation: Double, lutPath: Option<string>,
                               titleText: Option<string>, titleOpacity: Double, audioDuckingDb: Double)
    : (r: Result<EffectParameters>)
    ensures r.Ok? <==> (!OutOfRange(brightness, -1.0, 1.0) && !OutOfRange(contrast, -1.0, 1.0)
      && !OutOfRange(saturation, -1.0, 1.0) && !OutOfRange(titleOpacity, 0.0, 1.0) && !NotANumber(audioDuckingDb))
    ensures r.Ok? ==> r.value == EffectParameters(brightness, contrast, saturation, lutPath, titleText, titleOpacity, audioDuckingDb)
    ensures r.Err? ==> r.error == IllegalArgument
  {
    if OutOfRange(brightness, -1.0, 1.0) then Err(IllegalArgument)
    else if OutOfRange(contrast, -1.0, 1.0) then Err(IllegalArgument)
    else if OutOfRange(saturation, -1.0, 1.0) then Err(IllegalArgument)
    else if OutOfRange(titleOpacity, 0.0, 1.0) then Err(IllegalArgument)
    else if NotANumber(audioDuckingDb) then Err(IllegalArgument)
    else Ok(EffectParameters(brightness, contrast, saturation, lutPath, titleText, titleOpacity, audioDuckingDb))
  }

  /** `identity()`: all zeros, no LUT and no title. */
  function Identity(): (r: EffectParameters)
    ensures NewEffectParameters(r.brightness, r.contrast, r.saturation, r.lutPath, r.titleText, r.titleOpacity, r.audioDuckingDb) == Ok(r)
    ensures r.lutPath.None? && r.titleText.None?
  {
    EffectParameters(Finite(0.0), Finite(0.0), Finite(0.0), None, None, Finite(0.0), Finite(0.0))
  }

  /** A NaN colour setting or opacity passes every range check; only the ducking level is checked for NaN. */
  lemma NaNPassesRangeChecks()
    ensures NewEffectParameters(NaN, NaN, NaN, None, None, NaN, Finite(0.0)).Ok?
    ensures NewEffectParameters(Finite(0.0), Finite(0.0), Finite(0.0), None, None, Finite(0.0), NaN).Err?
  {
  }
}
