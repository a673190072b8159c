/** The trend suffix of the widget's header (`trendsFromStats`): the
    longer-window average minus the live one, with a dead band of 5 on
    either side. */
module Trends {
  import opened JsBuiltins

  /** The two fields of the sensor's `Stats` document that the trend reads:
      `v1` (recent average) and `v2` (longer-window average), as text. */
  datatype Stats = Stats(v1: string, v2: string)

  /** The suffix for the parsed `v1` (`partLive`) and `v2` (`partTime`):
      their difference is NaN when either is, and then both tests fail. */
  function TrendSuffix(partLive: Option<int>, partTime: Option<int>): (r: string)
    ensures r == " Improving" <==>
      partLive.Some? && partTime.Some? && partTime.value - partLive.value > 5
    ensures r == " Worsening" <==>
      partLive.Some? && partTime.Some? && partTime.value - partLive.value < -5
    ensures r == "" <==>
      partLive.None? || partTime.None? || -5 <= partTime.value - partLive.value <= 5
  {
    var partDelta :=
      if partLive.Some? && partTime.Some? then Num((partTime.value - partLive.value) as real)
      else NaN;
    if Gt(partDelta, 5.0) then " Improving"
    else if Lt(partDelta, -5.0) then " Worsening"
    else ""
  }

  /** Improving and Worsening trade places; no trend stays no trend. */
  function Mirror(suffix: string): string {
    if suffix == " Improving" then " Worsening"
    else if suffix == " Worsening" then " Improving"
    else suffix
  }

  /** Swapping the live and the longer-window values swaps Improving and
      Worsening. */
  lemma TrendSwap(a: Option<int>, b: Option<int>)
    ensures TrendSuffix(b, a) == Mirror(TrendSuffix(a, b))
  {
  }

  lemma TrendExamples()
    ensures TrendSuffix(Some(10), Some(20)) == " Improving"
    ensures TrendSuffix(Some(20), Some(10)) == " Worsening"
    ensures TrendSuffix(Some(10), Some(12)) == ""
    ensures TrendSuffix(Some(10), Some(15)) == ""
    ensures TrendSuffix(None, Some(20)) == ""
  {
  }
}
