# NASA weather query engine: a Dafny model

This project models the weather query engine of the NASA weather dashboard
app and the two pieces of front-end logic that feed it and read it back.

- **Weather controller** (`backend/controllers/weatherController.js`):
  - the variable registry `NASA_DATA_CONFIG`;
  - `getWeatherForecast`:
    - request validation;
    - the per-variable loop that fills the result map and the export rows;
    - Fahrenheit-to-Kelvin conversion of temperature thresholds;
    - the sample mean;
    - the exceedance percentage and its "N/A" sentinel;
    - the artifact name and download link;
  - `downloadData`, which serves an artifact and then deletes it.
- **Query form** (`frontend/src/pages/Dashboard/QueryForm.jsx`):
  - the form state is a class, `QueryForm.Form`, whose handler methods update it in place;
  - the list rebuilds those handlers perform (toggle a variable, add or remove a threshold) are pure functions with lemmas;
  - the threshold unit derived from a unit label;
  - the checks done before a query is submitted or a dashboard is saved.
- **Result card** (`frontend/src/components/Visualization/ResultsSummary.jsx`):
  - the colour band chosen from the probability text;
  - the heading made from the variable key.

Modules, one per file:

| file | module | contents |
|---|---|---|
| `strings.dfy` | `JsStrings` | the JavaScript string operations the rest relies on: `trim`, `split(sep)[0]`, one-character upper/lower case, global character replace, whole-number rendering and leading-number parsing |
| `registry.dfy` | `Registry` | the registry and the ranges of the simulated samples |
| `statistics.dfy` | `Statistics` | threshold lookup, unit conversion, mean, exceedance, rounding |
| `weather_controller.dfy` | `WeatherController` | the query loop as a method proved against specification functions, and the controller class that owns the downloads directory |
| `query_form.dfy` | `QueryForm` | list updaters, unit label, validation, and the `Form` class |
| `results_summary.dfy` | `ResultsSummary` | colour band and heading |

Nondeterminism and I/O are inputs:
- the series `Math.random` produces for `variables[i]` is `draws[i]`, constrained to SampleCount (10) values inside the variable's range;
- `Date.now()` and the user id are parameters;
- whether a file transfer, an HTTP request or a dashboard save succeeds is a boolean parameter.

Numbers are exact reals, so the conversion, the mean and the percentage are exact.

In these places the model follows what the code does:
- a threshold in an unsupported unit is used unchanged, not rejected;
- `dayOfYear` is not range-checked, only tested for truthiness;
- the unlink is issued in the transfer callback whether or not the transfer reported an error;
- `NASA_DATA_CONFIG[varName]` is an ordinary property access, so a name inherited from `Object.prototype` (`toString`, `constructor`, ...) is not skipped: it gets a result with no samples, and it reaches `thresholds.find`.

## Model

| member | source | states |
|---|---|---|
| Registry.Config | backend/controllers/weatherController.js:10-51 | exactly the six registry keys have an own entry; temperature is AirTemp_Mean in K from GES_DISC_Dataset_XYZ |
| Registry.LookupConfig | backend/controllers/weatherController.js:78-79 | the property access finds an own entry exactly for the six registry keys, an inherited member exactly for the `Object.prototype` names, and undefined otherwise |
| Registry.RangeOf | backend/controllers/weatherController.js:85-100 | the generator has a range exactly for the registered keys, and each range has positive width |
| Statistics.FindThreshold | backend/controllers/weatherController.js:104 | None iff no threshold names the variable; otherwise the first threshold that does |
| Statistics.ConversionRoundTrip | backend/controllers/weatherController.js:112-115 | Fahrenheit-to-Kelvin and its inverse undo each other; 32 F is 273.15 K and 212 F is 373.15 K |
| Statistics.FahrenheitToKelvin | backend/controllers/weatherController.js:114 | the Kelvin value reads back as the Fahrenheit value; it is below 273.15 K exactly when the input is below 32 F |
| Statistics.ExceedsInEitherUnit | backend/controllers/weatherController.js:112-117 | a Kelvin sample exceeds the converted threshold iff, read in Fahrenheit, it exceeds the threshold as given |
| Statistics.ToBaseUnit | backend/controllers/weatherController.js:111-115 | only a temperature threshold in 'F' is converted (its value is the Fahrenheit reading of the result); every other unit, supported or not, passes through unchanged |
| Statistics.SumBounds | backend/controllers/weatherController.js:103 | the sum of n values in [lo, hi) lies in [n lo, n hi) |
| Statistics.SumFromFront | backend/controllers/weatherController.js:103 | the left-to-right sum of `reduce` equals the sum taken from the front |
| Statistics.SumConstant | backend/controllers/weatherController.js:103 | n copies of c sum to n c |
| Statistics.MeanOfConstant | backend/controllers/weatherController.js:103 | a series of one repeated value has that value as its mean |
| Statistics.MeanBounds | backend/controllers/weatherController.js:103 | the mean of values in [lo, hi) lies in [lo, hi) |
| Statistics.SimulatedMeanInRange | backend/controllers/weatherController.js:85-103 | the mean of a simulated series lies in the variable's range; for temperature in [273.15, 323.15) |
| Statistics.CountAbove | backend/controllers/weatherController.js:117 | the count never exceeds the series length |
| Statistics.CountAboveIsCardinality | backend/controllers/weatherController.js:117 | the count is the number of positions holding a sample strictly above the threshold, so ties do not count |
| Statistics.FractionAtMostOne | backend/controllers/weatherController.js:120 | a count over a length no smaller than it is a fraction in [0, 1] |
| Statistics.Exceedance | backend/controllers/weatherController.js:117-120 | the percentage lies in [0, 100] and equals 100 times the number of samples above the threshold over the series length |
| Statistics.CountAboveAntitone | backend/controllers/weatherController.js:117 | raising the threshold never raises the count |
| Statistics.CountAboveAll | backend/controllers/weatherController.js:117 | when every sample is above the threshold, all of them are counted |
| Statistics.ExceedanceExtremes | backend/controllers/weatherController.js:117-120 | no sample above gives 0%, every sample above gives 100% |
| Statistics.Evaluate | backend/controllers/weatherController.js:103-120 | the mean is the series mean; the probability is NotApplicable iff no threshold names the variable, and otherwise it is the exceedance of the first matching threshold in base units, in [0, 100] |
| Statistics.RoundHalfUp | backend/controllers/weatherController.js:129 | the whole number is within half a unit of the value, with halves rounded up |
| Statistics.ToFixed0 | backend/controllers/weatherController.js:129 | a non-negative value renders as nothing but the decimal digits of its rounded value, with no leading zero, and the text parses back to that value; the text starts with '-' iff the value is negative |
| JsStrings.NatToString | backend/controllers/weatherController.js:129 | a non-empty run of digits with no leading zero except for 0 itself |
| JsStrings.DigitsValueOfNatToString | backend/controllers/weatherController.js:129 | reading a rendered whole number back gives the number |
| JsStrings.ParseLeadingNat | frontend/src/components/Visualization/ResultsSummary.jsx:10 | no number (NaN) iff the text is empty or does not start with a digit |
| JsStrings.ParseNatToString | frontend/src/components/Visualization/ResultsSummary.jsx:10 | a rendered number followed by a non-digit suffix such as '%' parses back to the number |
| WeatherController.MissingParameters | backend/controllers/weatherController.js:67 | an absent location, day or variable list, the falsy day 0 and an empty list all count as missing; a request missing none of them has a location, a day and a variable list |
| WeatherController.ProbabilityText | backend/controllers/weatherController.js:128-130 | the text is "N/A" iff there is no threshold; a percentage renders as exactly the digits of its rounded value followed by '%', and parses back to that value |
| WeatherController.ResultOf | backend/controllers/weatherController.js:132-139 | a registered key's entry carries the series mean and the registry's unit, source and short code, and with a threshold its text reads as the rounded exceedance (at most 100) of the series over the first threshold naming the key, in the base unit; an inherited name's entry has no samples; either says "N/A" iff no threshold names the key |
| WeatherController.SeriesRows | backend/controllers/weatherController.js:142-152 | one row per sample, in series order; row k has year offset -(k+1), the sample, and the registry's unit and source |
| WeatherController.PushSeriesRows | backend/controllers/weatherController.js:142-152 | the loop appends exactly the variable's rows, in series order, to the rows so far |
| WeatherController.ProcessVariables | backend/controllers/weatherController.js:77-153 | the loop fails iff the thresholds are absent and some key with a truthy lookup (registered or inherited) is reached; otherwise its result map and rows are those of the specification functions over all of `variables` |
| WeatherController.ProcessEntry | backend/controllers/weatherController.js:80-152 | one pass of the loop body fails iff the thresholds are absent and the key's lookup is truthy; otherwise it takes the result map and rows from the state after `i` entries to the state after `i + 1`, skipping a key whose lookup is undefined |
| WeatherController.TruthyFromIff | backend/controllers/weatherController.js:78-79 | the search from index `i` finds a key with a truthy lookup iff some entry at or after `i` has one |
| WeatherController.ResultKeys | backend/controllers/weatherController.js:77-79 | the result map's keys are exactly the keys among `variables` whose lookup is truthy, except `__proto__`, whose assignment replaces the map's prototype |
| WeatherController.RowCount | backend/controllers/weatherController.js:142-152 | the rows number 10 times the registered entries of `variables`, repeats included |
| WeatherController.OnlyUnknownKeys | backend/controllers/weatherController.js:78-79 | a query naming only keys the lookup leaves undefined gives an empty map, no rows and no failure |
| WeatherController.InheritedNameQuery | backend/controllers/weatherController.js:78-104 | a query for `toString` alone fails without thresholds; with thresholds it answers one entry with no samples ("N/A", or "NaN%" when a threshold names it) and no rows |
| WeatherController.NoKnownCount | backend/controllers/weatherController.js:78-79 | a list without a registered key, whether its names are undefined in the lookup or inherited, has no registered entry, so it contributes no rows |
| WeatherController.LastOccurrenceWins | backend/controllers/weatherController.js:132 | a key listed twice keeps one map entry, the one computed for its last occurrence |
| WeatherController.RowsPrefix | backend/controllers/weatherController.js:143 | rows are only appended: earlier rows stay a prefix of later ones |
| WeatherController.RowAt | backend/controllers/weatherController.js:142-152 | sample k of the i-th entry sits at row 10 × (registered entries before i) + k, with year offset -(k+1) and the registry's variable, unit and source |
| WeatherController.ResultContents | backend/controllers/weatherController.js:103-139 | every map entry is for a requested registered or inherited key other than `__proto__` and says "N/A" iff the query has no threshold for it; a registered key's entry carries the registry unit, a mean in the variable's range and, with a threshold, a text that reads as the rounded exceedance of the series drawn for the key's last occurrence; an inherited name's entry has no samples |
| WeatherController.LastIndexOf | backend/controllers/weatherController.js:132 | the last position of a key in `variables` |
| WeatherController.FileName | backend/controllers/weatherController.js:74 | the name starts with `nasa_weather_query_` and ends with `.csv`; without a user it continues with `anonymous_` |
| WeatherController.FileNameInjective | backend/controllers/weatherController.js:74 | two artifacts for different users or different milliseconds never share a name |
| WeatherController.SuffixAfterSeparator | backend/controllers/weatherController.js:74 | a name of the form user + '_' + digits splits back into that user and those digits |
| WeatherController.Controller.constructor | backend/controllers/weatherController.js:160-163 | the downloads directory starts empty |
| WeatherController.Controller.GetWeatherForecast | backend/controllers/weatherController.js:58-180 | a request without location, without a truthy day or without variables gets 400 and nothing is written; absent thresholds at a key with a truthy lookup give 500 and nothing is written; otherwise the rows are stored under the new name and the response carries the result map and `/api/weather/download/<name>` |
| WeatherController.Controller.DownloadData | backend/controllers/weatherController.js:187-205 | an existing artifact is served, or the transfer fails, and it is removed either way; a missing one gets 404; no other artifact changes |
| WeatherController.DownloadTwice | backend/controllers/weatherController.js:191-204 | a second download of the same name always gets 404 |
| JsStrings.Trim | frontend/src/pages/Dashboard/QueryForm.jsx:86 | the result is a slice of the text, with only whitespace around it and no whitespace at either end |
| JsStrings.TrimKeepsAbsent | frontend/src/pages/Dashboard/QueryForm.jsx:86 | trimming never introduces a character |
| JsStrings.TrimEmptyIff | frontend/src/pages/Dashboard/QueryForm.jsx:160 | a trimmed text is empty iff the text is all whitespace |
| JsStrings.FirstIndexFinds | frontend/src/pages/Dashboard/QueryForm.jsx:86 | the first separator position: no separator before it, and it holds the separator unless it is the end |
| JsStrings.BeforeFirst | frontend/src/pages/Dashboard/QueryForm.jsx:86 | `split(sep)[0]` is the longest prefix without the separator |
| QueryForm.RemoveKey | frontend/src/pages/Dashboard/QueryForm.jsx:58 | the filtered list is never longer than the list |
| QueryForm.RemoveKeyMembers | frontend/src/pages/Dashboard/QueryForm.jsx:58 | the filtered list holds every other entry and never the key; without the key the list is unchanged |
| QueryForm.RemoveKeyConcat | frontend/src/pages/Dashboard/QueryForm.jsx:58 | filtering distributes over concatenation, so other entries keep their order |
| QueryForm.ToggleVariable | frontend/src/pages/Dashboard/QueryForm.jsx:57-59 | the key is selected afterwards iff it was not before; other keys are untouched; an unselected key is appended at the end |
| QueryForm.ToggleSelected | frontend/src/pages/Dashboard/QueryForm.jsx:57-59 | deselecting a key leaves the entries around it in order; toggling it again moves it to the end |
| QueryForm.ToggleTwiceUnselected | frontend/src/pages/Dashboard/QueryForm.jsx:57-59 | selecting then deselecting a key restores the list |
| QueryForm.ToggleKeepsNoDuplicates | frontend/src/pages/Dashboard/QueryForm.jsx:57-59 | toggling never selects a key twice |
| QueryForm.RemoveKeyNoDuplicates | frontend/src/pages/Dashboard/QueryForm.jsx:58 | filtering keeps a list without repeats |
| QueryForm.OnlyForCons | frontend/src/pages/Dashboard/QueryForm.jsx:62 | the thresholds of one variable in a list with a new head |
| QueryForm.OnlyForConcat | frontend/src/pages/Dashboard/QueryForm.jsx:105 | a variable's thresholds in a concatenation are its thresholds in each part, in order |
| QueryForm.WithoutThreshold | frontend/src/pages/Dashboard/QueryForm.jsx:114 | the result holds exactly the thresholds of the other variables |
| QueryForm.OnlyForWithout | frontend/src/pages/Dashboard/QueryForm.jsx:111-115 | after removal the key has no threshold and every other variable keeps exactly its thresholds, in order |
| QueryForm.ThresholdsFor | frontend/src/pages/Dashboard/QueryForm.jsx:62 | the result holds exactly the thresholds whose variable is selected |
| QueryForm.OnlyForSelected | frontend/src/pages/Dashboard/QueryForm.jsx:62 | pruning keeps every selected variable's thresholds in order and drops the others' |
| QueryForm.WithThreshold | frontend/src/pages/Dashboard/QueryForm.jsx:100-106 | the new threshold is last, and the list holds it plus exactly the thresholds of other variables |
| QueryForm.OnlyForWith | frontend/src/pages/Dashboard/QueryForm.jsx:100-106 | after adding, the new threshold is its variable's only one and every other variable keeps its thresholds in order |
| QueryForm.OnePerVariableCons | frontend/src/pages/Dashboard/QueryForm.jsx:100-106 | a new head for a variable the list does not mention keeps at most one threshold per variable |
| QueryForm.WithoutKeepsOnePerVariable | frontend/src/pages/Dashboard/QueryForm.jsx:111-115 | removal keeps at most one threshold per variable |
| QueryForm.SelectedKeepsOnePerVariable | frontend/src/pages/Dashboard/QueryForm.jsx:62 | pruning keeps at most one threshold per variable |
| QueryForm.WithKeepsOnePerVariable | frontend/src/pages/Dashboard/QueryForm.jsx:100-106 | adding a threshold keeps at most one per variable |
| QueryForm.PrimaryUnit | frontend/src/pages/Dashboard/QueryForm.jsx:86 | the text before the first '/', trimmed, contains no '/' |
| QueryForm.ThresholdUnit | frontend/src/pages/Dashboard/QueryForm.jsx:86-87 | a primary unit of 'Fahrenheit' is sent as 'F'; any other primary unit is sent unchanged; the unit contains no '/' |
| QueryForm.UiUnitsMatchServer | frontend/src/pages/Dashboard/QueryForm.jsx:6-13 | every variable the form offers is registered on the server, and only temperature's threshold is sent in 'F' |
| QueryForm.UiEntryUnit | frontend/src/pages/Dashboard/QueryForm.jsx:6-13 | each offered variable is registered; the form sends 'F', 'mm', 'm', '%', 'W' and 'unitless' for its six labels, 'F' only for the first, temperature |
| QueryForm.LabelUnitRate | frontend/src/pages/Dashboard/QueryForm.jsx:8 | 'mm/hr' gives 'mm' |
| QueryForm.LabelUnitSpeed | frontend/src/pages/Dashboard/QueryForm.jsx:9 | 'm/s' gives 'm' |
| QueryForm.LabelUnitPercent | frontend/src/pages/Dashboard/QueryForm.jsx:10 | '%' gives '%' |
| QueryForm.LabelUnitPower | frontend/src/pages/Dashboard/QueryForm.jsx:11 | 'W/m^2' gives 'W' |
| QueryForm.LabelUnitless | frontend/src/pages/Dashboard/QueryForm.jsx:12 | 'unitless' gives 'unitless' |
| QueryForm.UnitOfLabel | frontend/src/pages/Dashboard/QueryForm.jsx:86 | a label whose text before '/' is a word plus whitespace yields that word |
| QueryForm.BeforeSlash | frontend/src/pages/Dashboard/QueryForm.jsx:86 | `split('/')[0]` stops at the first '/' |
| QueryForm.WhitespacePrefix | frontend/src/pages/Dashboard/QueryForm.jsx:86 | a non-empty all-whitespace prefix starts with whitespace |
| QueryForm.TrimPadded | frontend/src/pages/Dashboard/QueryForm.jsx:86 | trimming a word followed by whitespace gives the word |
| QueryForm.SubmitRefusal | frontend/src/pages/Dashboard/QueryForm.jsx:124-136 | the query may be sent iff a variable is selected and both coordinates are numbers |
| QueryForm.SaveRefusal | frontend/src/pages/Dashboard/QueryForm.jsx:160-175 | the dashboard may be saved iff the name is not blank and the query may be sent |
| QueryForm.Form.constructor | frontend/src/context/DashboardContext.jsx:9-14 | the initial query: Los Angeles, day 1, temperature and precipitation, no thresholds |
| QueryForm.Form.SetCoordinate | frontend/src/pages/Dashboard/QueryForm.jsx:34-46 | a NaN or 0 reading stores 0; a missing location becomes one with only that coordinate; a location with both coordinates keeps both |
| QueryForm.Form.SetDayOfYear | frontend/src/pages/Dashboard/QueryForm.jsx:47-51 | a NaN or 0 reading stores 1; the day is never 0 afterwards |
| QueryForm.Form.HandleVariableToggle | frontend/src/pages/Dashboard/QueryForm.jsx:55-71 | variables are toggled, thresholds of deselected variables are dropped, and the form invariant is kept |
| QueryForm.Form.HandleThresholdChange | frontend/src/pages/Dashboard/QueryForm.jsx:73-80 | only the input entry for the key changes |
| QueryForm.Form.HandleAddThreshold | frontend/src/pages/Dashboard/QueryForm.jsx:82-109 | with no value entered only the message changes; otherwise the key's threshold is replaced by the new one in the label's unit, leaving at most one per variable |
| QueryForm.Form.HandleRemoveThreshold | frontend/src/pages/Dashboard/QueryForm.jsx:111-117 | exactly the key's thresholds are dropped; variables are unchanged and the invariant is kept |
| QueryForm.Form.HandleSubmitQuery | frontend/src/pages/Dashboard/QueryForm.jsx:120-157 | refused, with nothing sent, without a variable or with a missing or NaN coordinate; otherwise the current query is sent unchanged |
| QueryForm.Form.HandleSaveDashboard | frontend/src/pages/Dashboard/QueryForm.jsx:159-198 | refused, with nothing sent, on a blank name or on what blocks a submit; otherwise sent with the name trimmed, and once the dashboard is created the name box is cleared and the saved message shows, since the refresh that follows catches its own errors |
| ResultsSummary.ProbabilityColor | frontend/src/components/Visualization/ResultsSummary.jsx:8-16 | "N/A" and non-numbers are green; red iff the number is at least 50; yellow iff it is in [20, 50) |
| ResultsSummary.BadgeClasses | frontend/src/components/Visualization/ResultsSummary.jsx:8-16 | the red classes iff the text is a number of at least 50, the yellow classes iff it is in [20, 50), the green classes for "N/A" and non-numbers |
| ResultsSummary.NoSamplesGreen | frontend/src/components/Visualization/ResultsSummary.jsx:8-16 | the card of an inherited name's entry ("N/A" or "NaN%") is green |
| ResultsSummary.ColorOfResponse | frontend/src/components/Visualization/ResultsSummary.jsx:8-16 | for the server's text: no threshold is green; red iff the exact exceedance is at least 49.5%; yellow iff it is in [19.5%, 49.5%); green iff below 19.5% |
| ResultsSummary.ColorMonotone | frontend/src/components/Visualization/ResultsSummary.jsx:8-16 | a higher exceedance never shows a less alarming band |
| JsStrings.ToUpper | frontend/src/components/Visualization/ResultsSummary.jsx:5 | the result is never a lower-case letter and lower-cases to what the input lower-cases to, so a lower-case ASCII letter becomes its capital and every other character is unchanged |
| JsStrings.ReplaceChar | frontend/src/components/Visualization/ResultsSummary.jsx:5 | the same length, with every occurrence of the character replaced and nothing else changed |
| ResultsSummary.DisplayName | frontend/src/components/Visualization/ResultsSummary.jsx:5 | same length as the key; first character upper-cased; every later '_' becomes a space and every other character is kept |
| ResultsSummary.DisplayNameTwoWords | frontend/src/components/Visualization/ResultsSummary.jsx:5 | a key `first_second` is shown as the capitalised first word, a space, and the second word |
| ResultsSummary.DisplayNameExample | frontend/src/components/Visualization/ResultsSummary.jsx:5 | `relative_humidity` is shown as `Relative humidity` |
| ResultsSummary.DisplayNameRoundTrip | frontend/src/components/Visualization/ResultsSummary.jsx:5 | a key that starts with a lower-case letter and has no space is recovered from its heading |

## Left out

- `Math.random`: the series is an input, constrained to the generator's length and range.
- `toFixed(2)` of the mean and `toFixed(4)` of the export values: both are kept as exact reals, since they are float formatting. `toFixed(0)` of the percentage is modelled as rounding half up to a whole number, which is what it does for the non-negative values it receives, up to floating-point representation.
- Floating-point arithmetic itself: the conversion, mean and percentage are exact reals.
- The `simpleExplanation` and `visualSuggestion` texts, the response's `visualizations` list and the `metadata` wrapper: these are presentation text, and the model keeps the metadata's source and short code as fields of the result.
- `json2csv.parse`, `fs`, `path`, `res.json` and `res.download`: the CSV is the row sequence, whose fields are declared in the CSV column order, and the downloads directory is a map from name to rows.
- The asynchronous callbacks of `res.download` and `fs.unlink`: the model deletes the artifact atomically. A failing `unlink` and concurrent requests are not modelled.
- WeatherController.Controller.DownloadData: deletes the artifact whenever it existed. If a transfer fails after the response headers went out, the `res.status(500).json` in the callback can itself throw before the unlink runs, and the file then stays; that path depends on Express internals and is not modelled.
- `results["__proto__"] = …` is modelled as adding no entry. The prototype it installs on the result map is not modelled, and neither are its effects on later lookups in that map.
- The `endpoint` URLs built from `process.env`: they are never used.
- The path in `downloadData` is built from the request's file name, so names containing `../` are not modelled; an artifact is looked up by its exact name.
- The server does not validate the location's contents or the range of `dayOfYear` (1..366); the model, like the code, checks only that they are present and truthy.
- JavaScript object key order of the result map: the map is unordered here.
- `parseFloat` and `parseInt` in the input handlers: the parsed number is a parameter (None for NaN). A NaN threshold value is not modelled, because a threshold's value is a real.
- `parseFloat` in the result card is modelled only on a leading run of decimal digits, which is all the server sends. A leading sign or a decimal point is therefore not modelled.
- `trim` removes the ASCII whitespace characters and the no-break space. The other characters JavaScript's `trim` strips are not modelled: the other Unicode space separators, the byte order mark U+FEFF and the line and paragraph separators U+2028 and U+2029.
- `toUpperCase` is modelled on ASCII letters only.
- The loading flag, `setQueryResults` and `fetchSavedDashboards` in the form: the model reports the outcome through the message only.
- The form's message texts: they are represented by a `Message` value that carries the key, value, unit or name the text embeds.
- QueryForm.Form.HandleAddThreshold: keeps the form invariant only when the key is selected. The form shows the add button only for selected variables (`QueryForm.jsx:277-295`), and that is not enforced in the handler itself.
- `dashboardController.js`, the Mongoose model, routes, `server.js`, authentication, the API client and the remaining pages and charts are not part of this model.
