/** The per-variable result card: the heading made from the variable key and
    the colour band of the exceedance badge. */
module ResultsSummary {
  import opened JsStrings
  import opened Registry
  import opened Statistics
  import opened WeatherController

  // ---------------------------------------------------------------------------
  // The exceedance badge

  /** The three bands of the badge: green (the default), yellow, red. */
  datatype ColorClass = Green | Yellow | Red

  /** The Tailwind classes of each band. */
  function CssClasses(c: ColorClass): string {
    match c
    case Green => "text-green-600 bg-green-100"
    case Yellow => "text-yellow-700 bg-yellow-100"
    case Red => "text-red-600 bg-red-100"
  }

  /** The band for the `probabilityExceedingThreshold` text: "N/A" and a text
      that does not read as a number (NaN fails both comparisons) stay green;
      otherwise 50 and above is red and 20 and above is yellow. */
  function ProbabilityColor(text: string): (c: ColorClass)
    ensures text == "N/A" || ParseLeadingNat(text).None? ==> c == Green
    ensures c == Red <==> text != "N/A" && ParseLeadingNat(text).Some? && ParseLeadingNat(text).value >= 50
    ensures c == Yellow <==> text != "N/A" && ParseLeadingNat(text).Some? && 20 <= ParseLeadingNat(text).value < 50
  {
    if text == "N/A" then Green
    else
      match ParseLeadingNat(text)
      case None => Green
      case Some(p) => if p >= 50 then Red else if p >= 20 then Yellow else Green
  }

  /** The band the card shows for the probability the server computed. The
      server sends the percentage rounded to a whole number, so the bands
      start at 49.5% and 19.5% of the exact exceedance; a variable without a
      threshold is green. */
  lemma ColorOfResponse(p: Probability)
    requires p.Percent? ==> p.value >= 0.0
    ensures p.NotApplicable? ==> ProbabilityColor(ProbabilityText(p)) == Green
    ensures p.Percent? ==> (ProbabilityColor(ProbabilityText(p)) == Red <==> p.value >= 49.5)
    ensures p.Percent? ==> (ProbabilityColor(ProbabilityText(p)) == Yellow <==> 19.5 <= p.value < 49.5)
    ensures p.Percent? ==> (ProbabilityColor(ProbabilityText(p)) == Green <==> p.value < 19.5)
  {
    if p.Percent? {
      var n := RoundHalfUp(p.value);
      assert ParseLeadingNat(ProbabilityText(p)) == Some(n);
      assert n >= 50 <==> p.value >= 49.5;
      assert n >= 20 <==> p.value >= 19.5;
    }
  }

  /** `probabilityColorClass`: the classes the badge gets for a probability
      text; green is the default, replaced only for a number of 20 or more. */
  function BadgeClasses(text: string): (cls: string)
    ensures (cls == "text-red-600 bg-red-100")
              <==> text != "N/A" && ParseLeadingNat(text).Some? && ParseLeadingNat(text).value >= 50
    ensures (cls == "text-yellow-700 bg-yellow-100")
              <==> text != "N/A" && ParseLeadingNat(text).Some? && 20 <= ParseLeadingNat(text).value < 50
    ensures text == "N/A" || ParseLeadingNat(text).None? ==> cls == "text-green-600 bg-green-100"
  {
    CssClasses(ProbabilityColor(text))
  }

  /** The card of an inherited name is green: its text is "N/A" or "NaN%",
      and NaN fails both comparisons. */
  lemma NoSamplesGreen(v: string, series: seq<real>, ts: seq<Threshold>)
    requires ConfigTruthy(v) && !IsKnown(v)
    ensures BadgeClasses(ResultOf(v, series, ts).probabilityExceedingThreshold) == "text-green-600 bg-green-100"
  {
    var t := ResultOf(v, series, ts).probabilityExceedingThreshold;
    assert t == "N/A" || t == "NaN%";
    if t != "N/A" {
      assert !IsDigit(t[0]);
    }
  }

  /** How alarming a band is. */
  function Severity(c: ColorClass): nat {
    match c
    case Green => 0
    case Yellow => 1
    case Red => 2
  }

  /** A higher exceedance never shows a less alarming band. */
  lemma ColorMonotone(p: real, q: real)
    requires 0.0 <= p <= q
    ensures Severity(ProbabilityColor(ProbabilityText(Percent(p)))) <= Severity(ProbabilityColor(ProbabilityText(Percent(q))))
  {
    ColorOfResponse(Percent(p));
    ColorOfResponse(Percent(q));
  }

  // ---------------------------------------------------------------------------
  // The card heading

  /** `variableName`: the key with its first character upper-cased and every
      '_' after it replaced by a space. */
  function DisplayName(key: string): (name: string)
    ensures |name| == |key|
    ensures |key| > 0 ==> name[0] == ToUpper(key[0])
    ensures forall i :: 1 <= i < |key| ==> name[i] == (if key[i] == '_' then ' ' else key[i])
  {
    if key == [] then []
    else
      var rest := ReplaceChar(key[1..], '_', ' ');
      assert forall i :: 1 <= i < |key| ==> ([ToUpper(key[0])] + rest)[i] == rest[i - 1];
      [ToUpper(key[0])] + rest
  }

  /** The heading of a two-word key: the first word capitalised, a space,
      then the second word. */
  lemma DisplayNameTwoWords(first: string, second: string)
    requires |first| > 0 && '_' !in first[1..] && '_' !in second
    ensures DisplayName(first + "_" + second) == [ToUpper(first[0])] + first[1..] + " " + second
  {
    var key := first + "_" + second;
    var name := DisplayName(key);
    var expected := [ToUpper(first[0])] + first[1..] + " " + second;
    forall i | 0 <= i < |key| ensures name[i] == expected[i] {
      if 0 < i < |first| {
        assert key[i] == first[1..][i - 1];
      } else if i > |first| {
        assert key[i] == second[i - |first| - 1];
      }
    }
  }

  /** The heading of the relative humidity card: `relative_humidity` is
      shown as `Relative humidity`. */
  lemma DisplayNameExample()
    ensures DisplayName("relative" + "_" + "humidity") == "Relative" + " " + "humidity"
  {
    DisplayNameTwoWords("relative", "humidity");
  }

  /** The key back from a heading: the first character lower-cased and every
      space after it turned back into '_'. */
  function KeyOf(name: string): (key: string)
    ensures |key| == |name|
  {
    if name == [] then [] else [ToLower(name[0])] + ReplaceChar(name[1..], ' ', '_')
  }

  /** A key that starts with a lower-case ASCII letter and holds no space (as
      every registry key does) is recovered from its heading, so two such keys
      never share a heading. */
  lemma DisplayNameRoundTrip(key: string)
    requires |key| > 0 && 'a' <= key[0] <= 'z'
    requires ' ' !in key
    ensures KeyOf(DisplayName(key)) == key
  {
    var name := DisplayName(key);
    ToLowerToUpper(key[0]);
    var back := KeyOf(name);
    forall i | 0 <= i < |key| ensures back[i] == key[i] {
      if i > 0 {
        assert back[i] == ReplaceChar(name[1..], ' ', '_')[i - 1];
        assert name[1..][i - 1] == name[i];
        assert key[i] != ' ';
      }
    }
  }
}
