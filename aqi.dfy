/** The two numeric steps of the widget (purpleair-aqi.js): the EPA wood-smoke
    correction of the sensor's two PM2.5 channels (`computePM`) and the
    piecewise-linear PM2.5 to AQI mapping (`aqiFromPM`, `calcAQI`), which
    follows Equation 1 of EPA's AQI Technical Assistance Document over the
    pre-2024 PM2.5 breakpoints, with no clamp above the top band. */
module Aqi {
  import opened JsBuiltins

  /** What `aqiFromPM` returns: the string "-" or an integral Number. */
  datatype AqiResult = Unavailable | Aqi(index: int)

  /** `aqi.toString()`: the text shown in the widget, and what `parseInt`
      reads back in `calculateLevel`. */
  function AqiText(aqi: AqiResult): (s: string)
    ensures s == "-" <==> aqi.Unavailable?
    ensures OrZero(ParseInt(s)) == if aqi.Aqi? then aqi.index else 0
  {
    match aqi
    case Unavailable =>
      ParseIntOfDash();
      "-"
    case Aqi(n) =>
      ParseIntOfIntToString(n, "");
      assert IntToString(n) + "" == IntToString(n);
      IntToString(n)
  }

  /** The raw fields `computePM` reads, in their textual form. */
  datatype SensorData = SensorData(adj1: string, adj2: string, hum: string)

  // ---------------------------------------------------------------- computePM

  /** The EPA draft correction for wood smoke, on parsed integer inputs. */
  function EpaCorrection(adj1: int, adj2: int, hum: int): real {
    0.52 * ((adj1 + adj2) as real / 2.0) - 0.085 * hum as real + 5.71
  }

  /** `computePM`: each field goes through `parseInt(x, 10)`; a NaN in any
      of them makes the whole expression NaN. */
  function ComputePM(data: SensorData): (pm: Number)
    ensures pm.NaN? <==>
      ParseInt(data.adj1).None? || ParseInt(data.adj2).None? || ParseInt(data.hum).None?
  {
    var adj1 := ParseInt(data.adj1);
    var adj2 := ParseInt(data.adj2);
    var hum := ParseInt(data.hum);
    if adj1.Some? && adj2.Some? && hum.Some? then
      Num(EpaCorrection(adj1.value, adj2.value, hum.value))
    else
      NaN
  }

  /** The correction rises with either channel and falls with humidity. */
  lemma EpaCorrectionMonotone(a1: int, a2: int, h: int, b1: int, b2: int, g: int)
    requires a1 <= b1 && a2 <= b2 && g <= h
    ensures EpaCorrection(a1, a2, h) <= EpaCorrection(b1, b2, g)
  {
  }

  /** The parsed value of every field is its truncated integer, so the
      correction only sees the integer parts of the readings. */
  lemma ComputePMOfIntegers(a1: int, a2: int, h: int, r1: string, r2: string, rh: string)
    requires r1 == [] || !IsDigit(r1[0])
    requires r2 == [] || !IsDigit(r2[0])
    requires rh == [] || !IsDigit(rh[0])
    ensures ComputePM(SensorData(IntToString(a1) + r1, IntToString(a2) + r2, IntToString(h) + rh))
         == Num(EpaCorrection(a1, a2, h))
  {
    ParseIntOfIntToString(a1, r1);
    ParseIntOfIntToString(a2, r2);
    ParseIntOfIntToString(h, rh);
  }

  lemma ComputePMExample()
    ensures ComputePM(SensorData("50", "50", "50")) == Num(27.46)
  {
    assert IntToString(50) == "50" by { assert NatToString(5) == "5"; }
    ComputePMOfIntegers(50, 50, 50, "", "", "");
    assert "50" + "" == "50";
  }

  // ---------------------------------------------------------------- calcAQI

  /** Equation 1: I = (I_hi - I_lo) / (BP_hi - BP_lo) * (C - BP_lo) + I_lo. */
  function Interpolate(cp: real, ih: real, il: real, bph: real, bpl: real): real
    requires bph != bpl
  {
    (ih - il) / (bph - bpl) * (cp - bpl) + il
  }

  /** `calcAQI`: Equation 1 rounded by `Math.round`. */
  function CalcAQI(cp: real, ih: real, il: real, bph: real, bpl: real): (r: int)
    requires bph != bpl
    ensures r as real - 0.5 <= Interpolate(cp, ih, il, bph, bpl) < r as real + 0.5
  {
    var a := ih - il;
    var b := bph - bpl;
    var c := cp - bpl;
    assert a / b * c + il == Interpolate(cp, ih, il, bph, bpl);
    Round(a / b * c + il)
  }

  /** At its two breakpoints a band yields its two integral index bounds. */
  lemma CalcAQIAtBreakpoints(ih: int, il: int, bph: real, bpl: real)
    requires bph != bpl
    ensures CalcAQI(bpl, ih as real, il as real, bph, bpl) == il
    ensures CalcAQI(bph, ih as real, il as real, bph, bpl) == ih
  {
    var slope := (ih - il) as real / (bph - bpl);
    assert slope * (bph - bpl) == (ih - il) as real;
    RoundIntegral(il);
    RoundIntegral(ih);
  }

  /** Over a band with rising breakpoints and indices, the rounded index
      never decreases as the concentration grows. */
  lemma CalcAQIMonotone(c1: real, c2: real, ih: real, il: real, bph: real, bpl: real)
    requires bpl < bph && il <= ih && c1 <= c2
    ensures CalcAQI(c1, ih, il, bph, bpl) <= CalcAQI(c2, ih, il, bph, bpl)
  {
    var slope := (ih - il) / (bph - bpl);
    assert slope >= 0.0;
    assert slope * (c1 - bpl) <= slope * (c2 - bpl) by {
      assert slope * (c2 - bpl) - slope * (c1 - bpl) == slope * (c2 - c1);
    }
    RoundMonotone(Interpolate(c1, ih, il, bph, bpl), Interpolate(c2, ih, il, bph, bpl));
  }

  // ---------------------------------------------------------------- aqiFromPM

  /** `aqiFromPM`: the bands are tried from the highest down and the first
      match wins; a NaN fails every test and ends in "-". */
  function AqiFromPM(pm: Number): (r: AqiResult)
    ensures r.Unavailable? <==> pm.NaN? || pm.value < 0.0
    ensures r.Aqi? ==> r.index >= 0
  {
    if Gt(pm, 350.5) then Aqi(CalcAQI(pm.value, 500.0, 401.0, 500.0, 350.5))
    else if Gt(pm, 250.5) then Aqi(CalcAQI(pm.value, 400.0, 301.0, 350.4, 250.5))
    else if Gt(pm, 150.5) then Aqi(CalcAQI(pm.value, 300.0, 201.0, 250.4, 150.5))
    else if Gt(pm, 55.5) then Aqi(CalcAQI(pm.value, 200.0, 151.0, 150.4, 55.5))
    else if Gt(pm, 35.5) then Aqi(CalcAQI(pm.value, 150.0, 101.0, 55.4, 35.5))
    else if Gt(pm, 12.1) then Aqi(CalcAQI(pm.value, 100.0, 51.0, 35.4, 12.1))
    else if Ge(pm, 0.0) then Aqi(CalcAQI(pm.value, 50.0, 0.0, 12.0, 0.0))
    else Unavailable
  }

  /** Every concentration lands inside the EPA index range of the band it
      falls in; the ranges are disjoint and rising, and the top one has no
      upper end. */
  lemma AqiBandRanges(v: real)
    requires v >= 0.0
    ensures var n := AqiFromPM(Num(v)).index;
      && (v <= 12.1 ==> 0 <= n <= 50)
      && (12.1 < v <= 35.5 ==> 51 <= n <= 100)
      && (35.5 < v <= 55.5 ==> 101 <= n <= 150)
      && (55.5 < v <= 150.5 ==> 151 <= n <= 200)
      && (150.5 < v <= 250.5 ==> 201 <= n <= 300)
      && (250.5 < v <= 350.5 ==> 301 <= n <= 400)
      && (350.5 < v ==> 401 <= n)
  {
  }

  /** The AQI never decreases as the corrected concentration grows, within
      a band and across every band boundary. */
  lemma AqiMonotone(p: real, q: real)
    requires 0.0 <= p <= q
    ensures AqiFromPM(Num(p)).index <= AqiFromPM(Num(q)).index
  {
    AqiBandRanges(p);
    AqiBandRanges(q);
    if q <= 12.1 {
      CalcAQIMonotone(p, q, 50.0, 0.0, 12.0, 0.0);
    } else if p > 350.5 {
      CalcAQIMonotone(p, q, 500.0, 401.0, 500.0, 350.5);
    } else if 250.5 < p && q <= 350.5 {
      CalcAQIMonotone(p, q, 400.0, 301.0, 350.4, 250.5);
    } else if 150.5 < p && q <= 250.5 {
      CalcAQIMonotone(p, q, 300.0, 201.0, 250.4, 150.5);
    } else if 55.5 < p && q <= 150.5 {
      CalcAQIMonotone(p, q, 200.0, 151.0, 150.4, 55.5);
    } else if 35.5 < p && q <= 55.5 {
      CalcAQIMonotone(p, q, 150.0, 101.0, 55.4, 35.5);
    } else if 12.1 < p && q <= 35.5 {
      CalcAQIMonotone(p, q, 100.0, 51.0, 35.4, 12.1);
    }
  }

  /** Concentrations above 350.5 all use the 401-500 band's slope, even past
      its 500.0 breakpoint, so the index goes above 500. */
  lemma AqiUnclamped(v: real)
    requires v > 350.5
    ensures AqiFromPM(Num(v)) == Aqi(CalcAQI(v, 500.0, 401.0, 500.0, 350.5))
    ensures v >= 501.0 ==> AqiFromPM(Num(v)).index > 500
  {
  }

  lemma AqiExamples()
    ensures AqiFromPM(Num(-0.1)) == Unavailable
    ensures AqiFromPM(NaN) == Unavailable
    ensures AqiFromPM(Num(0.0)) == Aqi(0)
    ensures AqiFromPM(Num(600.0)) == Aqi(566)
  {
    assert Interpolate(600.0, 500.0, 401.0, 500.0, 350.5) == 99.0 / 149.5 * 249.5 + 401.0;
  }

  /** Each band's upper breakpoint maps to its upper index, and 12.1, the
      first band's exclusive upper edge in this code, still maps to 50. */
  lemma AqiAtBreakpoints()
    ensures AqiFromPM(Num(12.0)) == Aqi(50)
    ensures AqiFromPM(Num(12.1)) == Aqi(50)
    ensures AqiFromPM(Num(35.4)) == Aqi(100)
    ensures AqiFromPM(Num(55.4)) == Aqi(150)
    ensures AqiFromPM(Num(150.4)) == Aqi(200)
    ensures AqiFromPM(Num(250.4)) == Aqi(300)
    ensures AqiFromPM(Num(350.4)) == Aqi(400)
    ensures AqiFromPM(Num(500.0)) == Aqi(500)
  {
    CalcAQIAtBreakpoints(50, 0, 12.0, 0.0);
    CalcAQIAtBreakpoints(100, 51, 35.4, 12.1);
    CalcAQIAtBreakpoints(150, 101, 55.4, 35.5);
    CalcAQIAtBreakpoints(200, 151, 150.4, 55.5);
    CalcAQIAtBreakpoints(300, 201, 250.4, 150.5);
    CalcAQIAtBreakpoints(400, 301, 350.4, 250.5);
    CalcAQIAtBreakpoints(500, 401, 500.0, 350.5);
    AqiBandRanges(12.1);
  }
}
