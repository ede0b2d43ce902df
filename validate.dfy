/** `validateNumeric` of includes/functions.php. */
module Validate {
  import opened Wrappers
  import opened Php

  /** `validateNumeric($value, $min, $max)`: `is_numeric`, then `floatval`
      compared with each bound that is given. Bounds are in hundredths. */
  function ValidateNumeric(v: Value, min: Option<int>, max: Option<int>): (ok: bool)
    ensures ok <==> NumericValue(v).Some?
                    && (min.Some? ==> min.value <= NumericValue(v).value)
                    && (max.Some? ==> NumericValue(v).value <= max.value)
  {
    if NumericValue(v).None? then false
    else
      FloatValNumeric(v);
      var x := FloatVal(v);
      if min.Some? && x < min.value then false
      else if max.Some? && x > max.value then false
      else true
  }
}
