/** The weather query controller: request validation, the per-variable loop
    that fills the result map and the export rows, the CSV artifact written
    to the downloads directory, and the download that serves the artifact and
    then deletes it. */
module WeatherController {
  import opened JsStrings
  import opened Registry
  import opened Statistics

  /** The request's location object; the controller only checks that it is
      present and copies it into every export row. */
  datatype Location = Location(lat: real, lon: real)

  /** The body of a query request. An absent field is None; `dayOfYear` may
      also be the falsy 0. */
  datatype Request = Request(
    location: Option<Location>,
    dayOfYear: Option<int>,
    variables: Option<seq<string>>,
    thresholds: Option<seq<Threshold>>)

  /** `!location || !dayOfYear || !variables || variables.length === 0`:
      an absent field, the falsy day 0 or an empty variable list. */
  predicate MissingParameters(req: Request): (b: bool)
    ensures req.dayOfYear == Some(0) ==> b
    ensures req.variables == Some([]) ==> b
    ensures !b ==> req.location.Some? && req.dayOfYear.Some? && req.variables.Some?
  {
    || req.location.None?
    || req.dayOfYear.None? || req.dayOfYear.value == 0
    || req.variables.None? || |req.variables.value| == 0
  }

  /** A request that passed validation. `thresholds` may still be absent. */
  datatype Query = Query(location: Location, dayOfYear: int, variables: seq<string>, thresholds: Option<seq<Threshold>>)

  function QueryOf(req: Request): Query
    requires !MissingParameters(req)
  {
    Query(req.location.value, req.dayOfYear.value, req.variables.value, req.thresholds)
  }

  function ThresholdList(q: Query): seq<Threshold> {
    if q.thresholds.Some? then q.thresholds.value else []
  }

  /** `thresholds.find` on an absent list throws as soon as the loop reaches a
      key whose lookup is truthy (registered or inherited); the catch turns
      that into a 500. `TruthyFromIff` states the search as an existential. */
  predicate ThresholdsMissingFor(q: Query) {
    q.thresholds.None? && TruthyFrom(q.variables, 0)
  }

  /** `draws[i]` is the series the generator produced for `variables[i]`
      (one fresh series per occurrence, so a repeated key draws again). */
  predicate WellDrawn(vars: seq<string>, draws: seq<seq<real>>) {
    |draws| == |vars| && forall i :: 0 <= i < |vars| && IsKnown(vars[i]) ==> SimulatedSeries(vars[i], draws[i])
  }

  // ---------------------------------------------------------------------------
  // Per-variable result and export rows

  /** An entry of the result map. `Computed` is the entry for a registered
      variable. `NoSamples` is the entry for an inherited name: its series is
      empty, so the mean is NaN and the unit, source and short code are
      undefined (JSON drops them); only the probability text is kept, "N/A"
      without a threshold and "NaN%" with one (0 / 0 is NaN, a number). */
  datatype VariableResult =
    | Computed(
        mean: real,
        unit: string,
        probabilityExceedingThreshold: string,
        source: string,
        variableName: string)
    | NoSamples(probabilityExceedingThreshold: string)

  /** One export row; the constructor's fields are in the CSV column order. */
  datatype ExportRow = ExportRow(
    location: Location,
    dayOfYear: int,
    yearOffset: int,
    variable: string,
    value: real,
    unit: string,
    source: string)

  /** The probability as the response carries it: "N/A" for no threshold,
      otherwise the percentage rounded to a whole number followed by "%". */
  function ProbabilityText(p: Probability): (s: string)
    ensures |s| > 0 && (s == "N/A" <==> p.NotApplicable?)
    ensures p.Percent? && p.value >= 0.0 ==>
              && s[|s| - 1] == '%'
              && AllDigits(s[..|s| - 1]) && DigitsValue(s[..|s| - 1]) == RoundHalfUp(p.value)
              && ParseLeadingNat(s) == Some(RoundHalfUp(p.value))
  {
    match p
    case NotApplicable => "N/A"
    case Percent(v) =>
      var s := ToFixed0(v) + "%";
      assert s[0] == ToFixed0(v)[0] && s[..|s| - 1] == ToFixed0(v);
      if v >= 0.0 then ParseNatToString(RoundHalfUp(v), "%"); s else s
  }

  /** `results[varName]` for a key the loop processes and its series. */
  function ResultOf(varName: string, series: seq<real>, ts: seq<Threshold>): (r: VariableResult)
    requires ConfigTruthy(varName) && (IsKnown(varName) ==> |series| > 0)
    ensures IsKnown(varName) ==> r.Computed? && r.mean == Mean(series)
    ensures IsKnown(varName) ==> r.unit == Config(varName).value.unit && r.source == Config(varName).value.source
                                 && r.variableName == Config(varName).value.variable
    ensures !IsKnown(varName) ==> r.NoSamples?
    ensures r.probabilityExceedingThreshold == "N/A" <==> forall i :: 0 <= i < |ts| ==> ts[i].variable != varName
    ensures IsKnown(varName) && FindThreshold(ts, varName).Some? ==>
              var p := Exceedance(series, ToBaseUnit(varName, FindThreshold(ts, varName).value));
              && RoundHalfUp(p) <= 100
              && ParseLeadingNat(r.probabilityExceedingThreshold) == Some(RoundHalfUp(p))
  {
    if IsKnown(varName) then
      var config := Config(varName).value;
      var st := Evaluate(varName, series, ts);
      Computed(st.mean, config.unit, ProbabilityText(st.probability), config.source, config.variable)
    else
      NoSamples(if FindThreshold(ts, varName).Some? then "NaN%" else "N/A")
  }

  /** `results["__proto__"] = …` replaces the prototype of `results` instead
      of adding an entry, so the response never lists this key. */
  const ProtoKey: string := "__proto__"

  function RowOf(q: Query, varName: string, config: VariableConfig, index: nat, value: real): ExportRow {
    ExportRow(q.location, q.dayOfYear, -(index + 1), varName, value, config.unit, config.source)
  }

  /** The rows `historicalData.forEach` pushes for one variable. */
  function SeriesRows(q: Query, varName: string, config: VariableConfig, series: seq<real>): (rows: seq<ExportRow>)
    ensures |rows| == |series|
    ensures forall k :: 0 <= k < |series| ==>
              rows[k] == ExportRow(q.location, q.dayOfYear, -(k + 1), varName, series[k], config.unit, config.source)
  {
    if series == [] then []
    else SeriesRows(q, varName, config, series[..|series| - 1]) + [RowOf(q, varName, config, |series| - 1, series[|series| - 1])]
  }

  // ---------------------------------------------------------------------------
  // The loop, as functions of the number of entries of `variables` processed

  function ResultsAfter(q: Query, draws: seq<seq<real>>, n: nat): map<string, VariableResult>
    requires WellDrawn(q.variables, draws) && n <= |q.variables|
  {
    if n == 0 then map[]
    else
      var prev := ResultsAfter(q, draws, n - 1);
      var v := q.variables[n - 1];
      if ConfigTruthy(v) && v != ProtoKey then prev[v := ResultOf(v, draws[n - 1], ThresholdList(q))] else prev
  }

  function RowsAfter(q: Query, draws: seq<seq<real>>, n: nat): seq<ExportRow>
    requires WellDrawn(q.variables, draws) && n <= |q.variables|
  {
    if n == 0 then []
    else
      var prev := RowsAfter(q, draws, n - 1);
      var v := q.variables[n - 1];
      if IsKnown(v) then prev + SeriesRows(q, v, Config(v).value, draws[n - 1]) else prev
  }

  /** The number of entries of `vars` the registry knows, repeats included. */
  function KnownCount(vars: seq<string>): nat {
    if vars == [] then 0 else KnownCount(vars[..|vars| - 1]) + (if IsKnown(vars[|vars| - 1]) then 1 else 0)
  }

  datatype Processed = Processed(results: map<string, VariableResult>, rows: seq<ExportRow>) | ProcessingError

  /** The `for (const varName of variables)` loop: keys the lookup leaves
      undefined are skipped, every registered key sets its result and appends
      one row per sample, and an inherited name sets a result with no samples
      and appends no row. */
  method ProcessVariables(q: Query, draws: seq<seq<real>>) returns (out: Processed)
    requires WellDrawn(q.variables, draws)
    ensures out.ProcessingError? <==> ThresholdsMissingFor(q)
    ensures out.Processed? ==> out.results == ResultsAfter(q, draws, |q.variables|)
    ensures out.Processed? ==> out.rows == RowsAfter(q, draws, |q.variables|)
  {
    var results: map<string, VariableResult> := map[];
    var rows: seq<ExportRow> := [];
    for i := 0 to |q.variables|
      invariant results == ResultsAfter(q, draws, i)
      invariant rows == RowsAfter(q, draws, i)
      invariant q.thresholds.None? ==> (TruthyFrom(q.variables, 0) <==> TruthyFrom(q.variables, i))
    {
      var failed;
      failed, results, rows := ProcessEntry(q, draws, i, results, rows);
      if failed {
        return ProcessingError;
      }
    }
    return Processed(results, rows);
  }

  /** Some key of `vars` from index `i` on has a truthy lookup. */
  predicate TruthyFrom(vars: seq<string>, i: nat)
    requires i <= |vars|
    decreases |vars| - i
  {
    i < |vars| && (ConfigTruthy(vars[i]) || TruthyFrom(vars, i + 1))
  }

  /** `TruthyFrom` is the search for a key with a truthy lookup. */
  lemma {:induction false} TruthyFromIff(vars: seq<string>, i: nat)
    requires i <= |vars|
    ensures TruthyFrom(vars, i) <==> exists j :: i <= j < |vars| && ConfigTruthy(vars[j])
    decreases |vars| - i
  {
    if i < |vars| {
      TruthyFromIff(vars, i + 1);
    }
  }

  /** One pass of the loop body for `variables[i]`. A key the lookup leaves
      undefined is skipped (`continue`). Otherwise `thresholds.find` throws
      when `thresholds` is absent (`failed`); if not, a registered key gets
      its series' result and rows, and an inherited name, whose series stays
      empty, gets a result with no samples and no rows. */
  method ProcessEntry(q: Query, draws: seq<seq<real>>, i: nat, results: map<string, VariableResult>, rows: seq<ExportRow>)
    returns (failed: bool, results': map<string, VariableResult>, rows': seq<ExportRow>)
    requires WellDrawn(q.variables, draws) && i < |q.variables|
    requires results == ResultsAfter(q, draws, i) && rows == RowsAfter(q, draws, i)
    ensures failed <==> q.thresholds.None? && ConfigTruthy(q.variables[i])
    ensures !failed ==> results' == ResultsAfter(q, draws, i + 1) && rows' == RowsAfter(q, draws, i + 1)
  {
    var varName := q.variables[i];
    var config := LookupConfig(varName);
    results', rows' := results, rows;
    if config.Undefined? {
      return false, results', rows';
    }
    var historicalData := if RangeOf(varName).Some? then draws[i] else [];
    if q.thresholds.None? {
      return true, results', rows';
    }
    var ts := q.thresholds.value;
    if config.Own? {
      var st := Evaluate(varName, historicalData, ts);
      results' := results[varName := Computed(st.mean, config.config.unit, ProbabilityText(st.probability),
                                              config.config.source, config.config.variable)];
      rows' := PushSeriesRows(rows, q, varName, config.config, historicalData);
    } else if varName != ProtoKey {
      var threshold := FindThreshold(ts, varName);
      results' := results[varName := NoSamples(if threshold.Some? then "NaN%" else "N/A")];
    }
    failed := false;
  }

  /** `historicalData.forEach(... dataForDownload.push(...))`: one row per
      sample appended to `rows`, in series order. */
  method PushSeriesRows(rows: seq<ExportRow>, q: Query, varName: string, config: VariableConfig, series: seq<real>)
    returns (out: seq<ExportRow>)
    ensures out == rows + SeriesRows(q, varName, config, series)
  {
    out := rows;
    var k := 0;
    while k < |series|
      invariant 0 <= k <= |series|
      invariant out == rows + SeriesRows(q, varName, config, series[..k])
    {
      assert series[..k + 1][..k] == series[..k];
      out := out + [ExportRow(q.location, q.dayOfYear, -(k + 1), varName, series[k], config.unit, config.source)];
      k := k + 1;
    }
    assert series[..k] == series;
  }

  // ---------------------------------------------------------------------------
  // Properties of the loop's outcome

  /** The result map holds exactly the keys among the first `n` entries of
      `variables` whose lookup is truthy, except `__proto__`. */
  lemma {:induction false} ResultKeys(q: Query, draws: seq<seq<real>>, n: nat)
    requires WellDrawn(q.variables, draws) && n <= |q.variables|
    ensures forall v :: v in ResultsAfter(q, draws, n) <==> v in q.variables[..n] && ConfigTruthy(v) && v != ProtoKey
  {
    if n > 0 {
      ResultKeys(q, draws, n - 1);
      assert q.variables[..n] == q.variables[..n - 1] + [q.variables[n - 1]];
    }
  }

  /** Every registered entry contributes SampleCount rows, repeats included. */
  lemma {:induction false} RowCount(q: Query, draws: seq<seq<real>>, n: nat)
    requires WellDrawn(q.variables, draws) && n <= |q.variables|
    ensures |RowsAfter(q, draws, n)| == SampleCount * KnownCount(q.variables[..n])
  {
    if n > 0 {
      RowCount(q, draws, n - 1);
      assert q.variables[..n][..n - 1] == q.variables[..n - 1];
    }
  }

  /** A query naming only keys the lookup leaves undefined produces an empty
      result map and no rows, and never fails. */
  lemma OnlyUnknownKeys(q: Query, draws: seq<seq<real>>)
    requires WellDrawn(q.variables, draws)
    requires forall i :: 0 <= i < |q.variables| ==> !ConfigTruthy(q.variables[i])
    ensures ResultsAfter(q, draws, |q.variables|) == map[]
    ensures RowsAfter(q, draws, |q.variables|) == []
    ensures !ThresholdsMissingFor(q)
  {
    var n := |q.variables|;
    ResultKeys(q, draws, n);
    RowCount(q, draws, n);
    assert q.variables[..n] == q.variables;
    NoKnownCount(q.variables);
    TruthyFromIff(q.variables, 0);
  }

  /** A query for `toString` alone: without thresholds it fails, since the
      inherited name reaches `thresholds.find`; with thresholds it answers a
      result with no samples for `toString` and exports no row. */
  lemma InheritedNameQuery(q: Query, draws: seq<seq<real>>)
    requires WellDrawn(q.variables, draws) && q.variables == ["toString"]
    ensures q.thresholds.None? ==> ThresholdsMissingFor(q)
    ensures q.thresholds.Some? ==>
              && ResultsAfter(q, draws, 1) == map["toString" := NoSamples(
                   if FindThreshold(q.thresholds.value, "toString").Some? then "NaN%" else "N/A")]
              && RowsAfter(q, draws, 1) == []
  {
    assert LookupConfig(q.variables[0]).Inherited?;
  }

  /** A list without a registered key (its names undefined in the lookup or
      inherited) counts no registered entry. */
  lemma {:induction false} NoKnownCount(vars: seq<string>)
    requires forall i :: 0 <= i < |vars| ==> !IsKnown(vars[i])
    ensures KnownCount(vars) == 0
  {
    if vars != [] {
      NoKnownCount(vars[..|vars| - 1]);
    }
  }

  /** For a key that occurs more than once, the result is the one computed
      for its last occurrence. */
  lemma {:induction false} LastOccurrenceWins(q: Query, draws: seq<seq<real>>, n: nat, j: nat)
    requires WellDrawn(q.variables, draws) && n <= |q.variables|
    requires j < n && ConfigTruthy(q.variables[j]) && q.variables[j] != ProtoKey
    requires forall k :: j < k < n ==> q.variables[k] != q.variables[j]
    ensures q.variables[j] in ResultsAfter(q, draws, n)
    ensures ResultsAfter(q, draws, n)[q.variables[j]] == ResultOf(q.variables[j], draws[j], ThresholdList(q))
  {
    if j < n - 1 {
      LastOccurrenceWins(q, draws, n - 1, j);
    }
  }

  /** The rows built so far stay a prefix of the rows built later. */
  lemma {:induction false} RowsPrefix(q: Query, draws: seq<seq<real>>, n: nat, m: nat)
    requires WellDrawn(q.variables, draws) && n <= m <= |q.variables|
    ensures |RowsAfter(q, draws, n)| <= |RowsAfter(q, draws, m)|
    ensures RowsAfter(q, draws, m)[..|RowsAfter(q, draws, n)|] == RowsAfter(q, draws, n)
  {
    if n < m {
      RowsPrefix(q, draws, n, m - 1);
    }
  }

  /** The k-th sample of the i-th entry of `variables` sits at row
      SampleCount * (registered entries before i) + k, with year offset -(k+1)
      and the variable, unit and source of the registry. */
  lemma RowAt(q: Query, draws: seq<seq<real>>, i: nat, k: nat)
    requires WellDrawn(q.variables, draws) && i < |q.variables| && IsKnown(q.variables[i])
    requires k < SampleCount
    ensures SampleCount * KnownCount(q.variables[..i]) + k < |RowsAfter(q, draws, |q.variables|)|
    ensures RowsAfter(q, draws, |q.variables|)[SampleCount * KnownCount(q.variables[..i]) + k]
         == ExportRow(q.location, q.dayOfYear, -(k + 1), q.variables[i], draws[i][k],
                      Config(q.variables[i]).value.unit, Config(q.variables[i]).value.source)
  {
    RowCount(q, draws, i);
    RowsPrefix(q, draws, i + 1, |q.variables|);
    var before := RowsAfter(q, draws, i);
    var mine := SeriesRows(q, q.variables[i], Config(q.variables[i]).value, draws[i]);
    assert RowsAfter(q, draws, i + 1) == before + mine;
    assert (before + mine)[|before| + k] == mine[k];
  }

  /** What each entry of the result map says. Its key is one of the
      requested names, registered or inherited (never `__proto__`), and its
      probability is "N/A" exactly when the query has no threshold for that
      key. A registered key's entry has the registry's unit and a mean in the
      generator's range, and with a threshold its percentage is the rounded
      exceedance of the series drawn for the key's last occurrence; an
      inherited name's entry has no samples. */
  lemma ResultContents(q: Query, draws: seq<seq<real>>, v: string)
    requires WellDrawn(q.variables, draws)
    requires v in ResultsAfter(q, draws, |q.variables|)
    ensures (IsKnown(v) || v in PrototypeNames) && v != ProtoKey
    ensures var r := ResultsAfter(q, draws, |q.variables|)[v];
            && (r.probabilityExceedingThreshold == "N/A"
                <==> forall i :: 0 <= i < |ThresholdList(q)| ==> ThresholdList(q)[i].variable != v)
            && (IsKnown(v) ==>
                  && r.Computed?
                  && r.unit == Config(v).value.unit
                  && RangeOf(v).value.low <= r.mean < RangeOf(v).value.low + RangeOf(v).value.width)
            && (!IsKnown(v) ==> r.NoSamples?)
    ensures v in q.variables
    ensures IsKnown(v) && FindThreshold(ThresholdList(q), v).Some? ==>
              var p := Exceedance(draws[LastIndexOf(q.variables, v)], ToBaseUnit(v, FindThreshold(ThresholdList(q), v).value));
              && RoundHalfUp(p) <= 100
              && ParseLeadingNat(ResultsAfter(q, draws, |q.variables|)[v].probabilityExceedingThreshold) == Some(RoundHalfUp(p))
  {
    var n := |q.variables|;
    ResultKeys(q, draws, n);
    assert v in q.variables[..n];
    assert q.variables[..n] == q.variables;
    var j := LastIndexOf(q.variables, v);
    LastOccurrenceWins(q, draws, n, j);
    if IsKnown(v) {
      SimulatedMeanInRange(v, draws[j]);
    }
  }

  /** The position of the last occurrence of `v` in `vars`. */
  function LastIndexOf(vars: seq<string>, v: string): (j: nat)
    requires v in vars
    ensures j < |vars| && vars[j] == v
    ensures forall k :: j < k < |vars| ==> vars[k] != v
  {
    if vars[|vars| - 1] == v then |vars| - 1 else LastIndexOf(vars[..|vars| - 1], v)
  }

  // ---------------------------------------------------------------------------
  // The artifact name

  const DownloadRoute: string := "/api/weather/download/"

  /** `${downloadFileName}.csv` with `nasa_weather_query_${userId}_${Date.now()}`;
      an unauthenticated caller is "anonymous". */
  function FileName(userId: Option<string>, now: nat): (name: string)
    ensures |name| > 24 && name[..19] == "nasa_weather_query_" && name[|name| - 4..] == ".csv"
    ensures userId.None? ==> |name| > 33 && name[19..29] == "anonymous_"
  {
    "nasa_weather_query_" + (if userId.Some? then userId.value else "anonymous") + "_" + NatToString(now) + ".csv"
  }

  /** Distinct (user, millisecond) pairs never share an artifact name: the
      time stamp is the digit run after the last '_'. */
  lemma FileNameInjective(u1: string, n1: nat, u2: string, n2: nat)
    requires FileName(Some(u1), n1) == FileName(Some(u2), n2)
    ensures u1 == u2 && n1 == n2
  {
    var p := "nasa_weather_query_";
    var d1, d2 := NatToString(n1), NatToString(n2);
    var a := p + u1 + "_" + d1;
    var b := p + u2 + "_" + d2;
    assert a + ".csv" == FileName(Some(u1), n1);
    assert b + ".csv" == FileName(Some(u2), n2);
    assert a == (a + ".csv")[..|a|];
    assert b == (b + ".csv")[..|b|];
    assert a == b;
    var x := u1 + "_" + d1;
    var y := u2 + "_" + d2;
    assert a == p + x && b == p + y;
    assert x == a[|p|..] && y == b[|p|..];
    assert x == y;
    SuffixAfterSeparator(u1, d1, u2, d2);
    DigitsValueOfNatToString(n1);
    DigitsValueOfNatToString(n2);
  }

  /** Splitting `u + "_" + d` at a digit-only tail `d` is unambiguous. */
  lemma SuffixAfterSeparator(u1: string, d1: string, u2: string, d2: string)
    requires AllDigits(d1) && AllDigits(d2)
    requires u1 + "_" + d1 == u2 + "_" + d2
    ensures u1 == u2 && d1 == d2
  {
    var s := u1 + "_" + d1;
    var t := u2 + "_" + d2;
    var m := if |d1| <= |d2| then |d1| else |d2|;
    assert s[|s| - m - 1] == t[|t| - m - 1];
    assert |d1| == |d2|;
    assert d1 == s[|s| - |d1|..] && d2 == t[|t| - |d2|..];
    assert u1 == s[..|u1|] && u2 == t[..|u2|];
  }

  // ---------------------------------------------------------------------------
  // The controller and its downloads directory

  datatype Response =
    | BadRequest
    | ServerError
    | Success(queryResults: map<string, VariableResult>, downloadLink: string)

  datatype DownloadResponse = FileSent(rows: seq<ExportRow>) | DownloadFailed | NotFound

  class Controller {
    /** The downloads directory: artifact name to the rows its CSV holds. */
    var downloads: map<string, seq<ExportRow>>

    constructor()
      ensures downloads == map[]
    {
      downloads := map[];
    }

    /** `getWeatherForecast`: a request missing a parameter gets 400 and
        writes nothing; a failure inside the loop gets 500 and writes nothing;
        otherwise the CSV rows are stored under the new artifact name and the
        response carries the result map and the download link. */
    method GetWeatherForecast(req: Request, draws: seq<seq<real>>, userId: Option<string>, now: nat)
      returns (res: Response)
      requires req.variables.Some? ==> WellDrawn(req.variables.value, draws)
      modifies this
      ensures MissingParameters(req) ==> res == BadRequest && downloads == old(downloads)
      ensures !MissingParameters(req) && ThresholdsMissingFor(QueryOf(req)) ==>
                res == ServerError && downloads == old(downloads)
      ensures !MissingParameters(req) && !ThresholdsMissingFor(QueryOf(req)) ==>
                var q := QueryOf(req);
                && res == Success(ResultsAfter(q, draws, |q.variables|), DownloadRoute + FileName(userId, now))
                && downloads == old(downloads)[FileName(userId, now) := RowsAfter(q, draws, |q.variables|)]
    {
      if MissingParameters(req) {
        return BadRequest;
      }
      var q := Query(req.location.value, req.dayOfYear.value, req.variables.value, req.thresholds);
      var name := FileName(userId, now);
      var out := ProcessVariables(q, draws);
      if out.ProcessingError? {
        return ServerError;
      }
      downloads := downloads[name := out.rows];
      return Success(out.results, DownloadRoute + name);
    }

    /** `downloadData`: an existing artifact is served and then unlinked,
        whether or not serving succeeded; a missing one gets 404. */
    method DownloadData(filename: string, deliveryFails: bool) returns (res: DownloadResponse)
      modifies this
      ensures filename in old(downloads) ==>
                res == (if deliveryFails then DownloadFailed else FileSent(old(downloads)[filename]))
      ensures filename !in old(downloads) ==> res == NotFound
      ensures downloads == old(downloads) - {filename}
    {
      if filename in downloads {
        var rows := downloads[filename];
        res := if deliveryFails then DownloadFailed else FileSent(rows);
        downloads := downloads - {filename};
      } else {
        res := NotFound;
      }
    }
  }

  /** The same artifact cannot be downloaded twice: the second request for
      a name gets 404, and other artifacts are untouched. */
  method DownloadTwice(c: Controller, filename: string, firstFails: bool, secondFails: bool)
    returns (first: DownloadResponse, second: DownloadResponse)
    modifies c
    ensures filename in old(c.downloads) ==> first != NotFound
    ensures second == NotFound
    ensures c.downloads == old(c.downloads) - {filename}
  {
    first := c.DownloadData(filename, firstFails);
    second := c.DownloadData(filename, secondFails);
  }
}
