/** The statistics step of the weather query: threshold lookup, the
    Fahrenheit-to-Kelvin conversion, the mean of a sample series and the
    percentage of samples above the threshold. Values are exact reals. */
module Statistics {
  import opened JsStrings
  import opened Registry

  /** A threshold as the request carries it. A missing `unit` is the empty
      string. */
  datatype Threshold = Threshold(variable: string, value: real, unit: string)

  /** The exceedance probability: a percentage, or the "N/A" sentinel when the
      query gave no threshold for the variable. */
  datatype Probability = NotApplicable | Percent(value: real)

  datatype Stats = Stats(mean: real, probability: Probability)

  // ---------------------------------------------------------------------------
  // Threshold lookup

  /** `thresholds.find(t => t.variable === name)`: the first threshold for
      `name`, or None when there is none. */
  function FindThreshold(ts: seq<Threshold>, name: string): (r: Option<Threshold>)
    ensures r.None? <==> forall i :: 0 <= i < |ts| ==> ts[i].variable != name
    ensures r.Some? ==> exists i :: 0 <= i < |ts| && ts[i] == r.value && ts[i].variable == name
                          && forall j :: 0 <= j < i ==> ts[j].variable != name
  {
    if ts == [] then None
    else if ts[0].variable == name then Some(ts[0])
    else
      var r := FindThreshold(ts[1..], name);
      if r.Some? then
        var i :| 0 <= i < |ts[1..]| && ts[1..][i] == r.value && ts[1..][i].variable == name
                 && forall j :: 0 <= j < i ==> ts[1..][j].variable != name;
        assert ts[i + 1] == r.value;
        r
      else r
  }

  // ---------------------------------------------------------------------------
  // Unit conversion

  function FahrenheitToKelvin(f: real): (k: real)
    ensures KelvinToFahrenheit(k) == f
    ensures f < 32.0 <==> k < 273.15
  {
    (f - 32.0) * 5.0 / 9.0 + 273.15
  }

  function KelvinToFahrenheit(k: real): real {
    (k - 273.15) * 9.0 / 5.0 + 32.0
  }

  /** The two conversions are inverse to each other, and the freezing and
      boiling points of water map to 273.15 K and 373.15 K. */
  lemma ConversionRoundTrip(x: real)
    ensures KelvinToFahrenheit(FahrenheitToKelvin(x)) == x
    ensures FahrenheitToKelvin(KelvinToFahrenheit(x)) == x
    ensures FahrenheitToKelvin(32.0) == 273.15 && FahrenheitToKelvin(212.0) == 373.15
  {
  }

  /** Comparing a Kelvin sample with a converted Fahrenheit threshold is the
      same as comparing the sample, read in Fahrenheit, with the threshold as
      the user gave it. */
  lemma ExceedsInEitherUnit(sample: real, f: real)
    ensures sample > FahrenheitToKelvin(f) <==> KelvinToFahrenheit(sample) > f
  {
  }

  /** The threshold value in the variable's base unit: only a temperature
      threshold given in 'F' is converted; every other value, whatever its
      unit, is used unchanged. */
  function ToBaseUnit(varName: string, t: Threshold): (r: real)
    ensures varName == Temperature && t.unit == "F" ==> KelvinToFahrenheit(r) == t.value
    ensures !(varName == Temperature && t.unit == "F") ==> r == t.value
  {
    if varName == Temperature && t.unit == "F" then
      ConversionRoundTrip(t.value);
      FahrenheitToKelvin(t.value)
    else t.value
  }

  // ---------------------------------------------------------------------------
  // Mean

  /** `s.reduce((a, b) => a + b, 0)`: the left-to-right sum. */
  function Sum(s: seq<real>): real {
    if s == [] then 0.0 else Sum(s[..|s| - 1]) + s[|s| - 1]
  }

  /** With exact numbers the left-to-right sum equals the sum taken from the
      front, so the order `reduce` adds in does not matter. */
  lemma {:induction false} SumFromFront(s: seq<real>)
    requires |s| > 0
    ensures Sum(s) == s[0] + Sum(s[1..])
  {
    if |s| > 1 {
      var p := s[..|s| - 1];
      SumFromFront(p);
      assert s[1..][..|s| - 2] == p[1..];
    }
  }

  /** `sum / s.length`. */
  function Mean(s: seq<real>): real
    requires |s| > 0
  {
    Sum(s) / |s| as real
  }

  /** A series of one repeated value has that value as its mean. */
  lemma MeanOfConstant(s: seq<real>)
    requires |s| > 0
    requires forall i :: 0 <= i < |s| ==> s[i] == s[0]
    ensures Mean(s) == s[0]
  {
    SumConstant(s, s[0]);
  }

  /** The sum of `|s|` copies of `c` is `|s| c`. */
  lemma {:induction false} SumConstant(s: seq<real>, c: real)
    requires forall i :: 0 <= i < |s| ==> s[i] == c
    ensures Sum(s) == |s| as real * c
  {
    if s != [] {
      SumConstant(s[..|s| - 1], c);
    }
  }

  /** A sum of `|s|` values, each in [lo, hi), lies in [|s| lo, |s| hi). */
  lemma {:induction false} SumBounds(s: seq<real>, lo: real, hi: real)
    requires forall i :: 0 <= i < |s| ==> lo <= s[i] < hi
    ensures |s| as real * lo <= Sum(s)
    ensures |s| > 0 ==> Sum(s) < |s| as real * hi
  {
    if s != [] {
      var p := s[..|s| - 1];
      SumBounds(p, lo, hi);
    }
  }

  /** The mean of values in [lo, hi) lies in [lo, hi). */
  lemma MeanBounds(s: seq<real>, lo: real, hi: real)
    requires |s| > 0
    requires forall i :: 0 <= i < |s| ==> lo <= s[i] < hi
    ensures lo <= Mean(s) < hi
  {
    SumBounds(s, lo, hi);
    var n := |s| as real;
    assert Mean(s) == Sum(s) / n;
    assert Mean(s) * n == Sum(s);
  }

  /** The mean of a simulated series lies in the generator's range for the
      variable; for temperature that is [273.15, 323.15) Kelvin. */
  lemma SimulatedMeanInRange(key: string, s: seq<real>)
    requires SimulatedSeries(key, s)
    ensures RangeOf(key).value.low <= Mean(s) < RangeOf(key).value.low + RangeOf(key).value.width
    ensures key == Temperature ==> 273.15 <= Mean(s) < 323.15
  {
    var r := RangeOf(key).value;
    MeanBounds(s, r.low, r.low + r.width);
  }

  // ---------------------------------------------------------------------------
  // Exceedance

  /** `s.filter(v => v > t).length`. */
  function CountAbove(s: seq<real>, t: real): (c: nat)
    ensures c <= |s|
  {
    if s == [] then 0 else CountAbove(s[..|s| - 1], t) + (if s[|s| - 1] > t then 1 else 0)
  }

  /** The positions of the samples strictly above `t`. */
  function AboveIndices(s: seq<real>, t: real): set<nat> {
    set i: nat | i < |s| && s[i] > t
  }

  /** The count is the number of samples strictly greater than `t`; a sample
      equal to `t` does not count. */
  lemma {:induction false} CountAboveIsCardinality(s: seq<real>, t: real)
    ensures CountAbove(s, t) == |AboveIndices(s, t)|
  {
    if s != [] {
      var p := s[..|s| - 1];
      CountAboveIsCardinality(p, t);
      var last := |s| - 1;
      if s[last] > t {
        assert AboveIndices(s, t) == AboveIndices(p, t) + {last};
        assert last !in AboveIndices(p, t);
      } else {
        assert AboveIndices(s, t) == AboveIndices(p, t);
      }
    }
  }

  /** `(countExceeding / s.length) * 100`. */
  function Exceedance(s: seq<real>, t: real): (p: real)
    requires |s| > 0
    ensures 0.0 <= p <= 100.0
    ensures p * |s| as real == 100.0 * |AboveIndices(s, t)| as real
  {
    CountAboveIsCardinality(s, t);
    var n := |s| as real;
    var c := CountAbove(s, t) as real;
    FractionAtMostOne(c, n);
    (c / n) * 100.0
  }

  lemma FractionAtMostOne(c: real, n: real)
    requires 0.0 <= c <= n && n > 0.0
    ensures 0.0 <= c / n <= 1.0
  {
    assert c / n * n == c;
  }

  /** Raising the threshold never raises the exceedance count. */
  lemma {:induction false} CountAboveAntitone(s: seq<real>, t1: real, t2: real)
    requires t1 <= t2
    ensures CountAbove(s, t2) <= CountAbove(s, t1)
  {
    if s != [] {
      CountAboveAntitone(s[..|s| - 1], t1, t2);
    }
  }

  /** No sample above the threshold gives 0%, every sample above it gives
      100%. */
  lemma {:induction false} ExceedanceExtremes(s: seq<real>, t: real)
    requires |s| > 0
    ensures (forall i :: 0 <= i < |s| ==> s[i] <= t) ==> Exceedance(s, t) == 0.0
    ensures (forall i :: 0 <= i < |s| ==> s[i] > t) ==> Exceedance(s, t) == 100.0
  {
    if forall i :: 0 <= i < |s| ==> s[i] <= t {
      assert AboveIndices(s, t) == {};
    }
    if forall i :: 0 <= i < |s| ==> s[i] > t {
      CountAboveAll(s, t);
    }
  }

  lemma {:induction false} CountAboveAll(s: seq<real>, t: real)
    requires forall i :: 0 <= i < |s| ==> s[i] > t
    ensures CountAbove(s, t) == |s|
  {
    if s != [] {
      CountAboveAll(s[..|s| - 1], t);
    }
  }

  /** The statistics step for one variable: the mean of the series, and the
      exceedance of the first threshold for the variable (converted to the base
      unit), or NotApplicable when there is none. */
  function Evaluate(varName: string, series: seq<real>, ts: seq<Threshold>): (st: Stats)
    requires |series| > 0
    ensures st.mean == Mean(series)
    ensures st.probability.NotApplicable? <==> forall i :: 0 <= i < |ts| ==> ts[i].variable != varName
    ensures st.probability.Percent? ==> 0.0 <= st.probability.value <= 100.0
    ensures st.probability.Percent? ==>
              (exists i :: 0 <= i < |ts| && ts[i].variable == varName
                 && (forall j :: 0 <= j < i ==> ts[j].variable != varName)
                 && st.probability.value == Exceedance(series, ToBaseUnit(varName, ts[i])))
  {
    var found := FindThreshold(ts, varName);
    var probability := if found.Some? then Percent(Exceedance(series, ToBaseUnit(varName, found.value))) else NotApplicable;
    Stats(Mean(series), probability)
  }

  // ---------------------------------------------------------------------------
  // Number formatting for the percentage

  /** Rounding half up to a whole number, as `toFixed(0)` does for a
      non-negative value. */
  function RoundHalfUp(x: real): (n: nat)
    requires x >= 0.0
    ensures n as real - 0.5 <= x < n as real + 0.5
  {
    (x + 0.5).Floor
  }

  /** `x.toFixed(0)`: the sign, then the magnitude rounded half away from
      zero (so a small negative value prints as "-0"). */
  function ToFixed0(x: real): (s: string)
    ensures |s| > 0 && (IsDigit(s[0]) || s[0] == '-')
    ensures x >= 0.0 ==> AllDigits(s) && DigitsValue(s) == RoundHalfUp(x) && (s[0] == '0' ==> |s| == 1)
    ensures x >= 0.0 ==> ParseLeadingNat(s) == Some(RoundHalfUp(x))
    ensures x < 0.0 <==> s[0] == '-'
  {
    if x < 0.0 then "-" + NatToString(RoundHalfUp(-x))
    else
      DigitsValueOfNatToString(RoundHalfUp(x));
      ParseNatToString(RoundHalfUp(x), []);
      assert NatToString(RoundHalfUp(x)) + [] == NatToString(RoundHalfUp(x));
      NatToString(RoundHalfUp(x))
  }
}
