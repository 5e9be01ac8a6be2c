/** The query builder form: the list rebuilds its state updaters perform
    (toggle a variable, add or remove a threshold), the threshold unit label,
    and the handlers that update the form state and check a query before it is
    submitted or saved. */
module QueryForm {
  import opened JsStrings
  import opened Registry
  import opened Statistics

  // ---------------------------------------------------------------------------
  // Variable list updates

  /** `vars.filter(v => v !== key)`. */
  function RemoveKey(vars: seq<string>, key: string): (r: seq<string>)
    ensures |r| <= |vars|
  {
    if vars == [] then []
    else (if vars[0] == key then [] else [vars[0]]) + RemoveKey(vars[1..], key)
  }

  /** The filtered list holds every other entry and never `key`; a list
      without `key` is returned unchanged. */
  lemma {:induction false} RemoveKeyMembers(vars: seq<string>, key: string)
    ensures forall v :: v in RemoveKey(vars, key) <==> v in vars && v != key
    ensures key !in vars ==> RemoveKey(vars, key) == vars
  {
    if vars != [] {
      RemoveKeyMembers(vars[1..], key);
      assert vars == [vars[0]] + vars[1..];
    }
  }

  /** Removing a key distributes over concatenation, so the other entries keep
      their relative order. */
  lemma {:induction false} RemoveKeyConcat(a: seq<string>, b: seq<string>, key: string)
    ensures RemoveKey(a + b, key) == RemoveKey(a, key) + RemoveKey(b, key)
  {
    if a != [] {
      var h := if a[0] == key then [] else [a[0]];
      assert (a + b)[0] == a[0];
      assert (a + b)[1..] == a[1..] + b;
      RemoveKeyConcat(a[1..], b, key);
      assert (h + RemoveKey(a[1..], key)) + RemoveKey(b, key) == h + (RemoveKey(a[1..], key) + RemoveKey(b, key));
    } else {
      assert a + b == b && RemoveKey(a, key) + RemoveKey(b, key) == RemoveKey(b, key);
    }
  }

  /** The `handleVariableToggle` rebuild of `variables`: drop `key` when it is
      selected, otherwise append it at the end. */
  function ToggleVariable(vars: seq<string>, key: string): (r: seq<string>)
    ensures key in r <==> key !in vars
    ensures forall v :: v != key ==> (v in r <==> v in vars)
    ensures key !in vars ==> r == vars + [key]
  {
    RemoveKeyMembers(vars, key);
    if key in vars then RemoveKey(vars, key) else vars + [key]
  }

  predicate NoDuplicates(vars: seq<string>) {
    forall i, j :: 0 <= i < j < |vars| ==> vars[i] != vars[j]
  }

  /** Deselecting a key that sits at one position leaves the entries before
      and after it, in order; toggling it again moves it to the end. */
  lemma ToggleSelected(a: seq<string>, key: string, b: seq<string>)
    requires key !in a && key !in b
    ensures ToggleVariable(a + [key] + b, key) == a + b
    ensures ToggleVariable(ToggleVariable(a + [key] + b, key), key) == a + b + [key]
  {
    var vars := a + [key] + b;
    assert key in vars;
    RemoveKeyConcat(a + [key], b, key);
    RemoveKeyConcat(a, [key], key);
    assert [key][1..] == [];
    assert RemoveKey([key], key) == [];
    RemoveKeyMembers(a, key);
    RemoveKeyMembers(b, key);
    assert RemoveKey(a + [key], key) == a;
    assert ToggleVariable(vars, key) == a + b;
    assert key !in a + b;
  }

  /** Toggling an unselected key twice restores the list. */
  lemma ToggleTwiceUnselected(vars: seq<string>, key: string)
    requires key !in vars
    ensures ToggleVariable(ToggleVariable(vars, key), key) == vars
  {
    RemoveKeyConcat(vars, [key], key);
    RemoveKeyMembers(vars, key);
    assert RemoveKey([key], key) == [];
  }

  /** Toggling never introduces a repeated entry. */
  lemma {:induction false} ToggleKeepsNoDuplicates(vars: seq<string>, key: string)
    requires NoDuplicates(vars)
    ensures NoDuplicates(ToggleVariable(vars, key))
  {
    if key in vars {
      RemoveKeyNoDuplicates(vars, key);
    }
  }

  lemma {:induction false} RemoveKeyNoDuplicates(vars: seq<string>, key: string)
    requires NoDuplicates(vars)
    ensures NoDuplicates(RemoveKey(vars, key))
  {
    if vars != [] {
      RemoveKeyNoDuplicates(vars[1..], key);
      RemoveKeyMembers(vars[1..], key);
      assert vars[0] !in vars[1..];
    }
  }

  // ---------------------------------------------------------------------------
  // Threshold list updates

  /** The thresholds for variable `k`, in list order. */
  function OnlyFor(ts: seq<Threshold>, k: string): seq<Threshold> {
    if ts == [] then []
    else (if ts[0].variable == k then [ts[0]] else []) + OnlyFor(ts[1..], k)
  }

  lemma OnlyForCons(x: Threshold, ts: seq<Threshold>, k: string)
    ensures OnlyFor([x] + ts, k) == (if x.variable == k then [x] else []) + OnlyFor(ts, k)
  {
    assert ([x] + ts)[0] == x && ([x] + ts)[1..] == ts;
  }

  lemma {:induction false} OnlyForConcat(a: seq<Threshold>, b: seq<Threshold>, k: string)
    ensures OnlyFor(a + b, k) == OnlyFor(a, k) + OnlyFor(b, k)
  {
    if a != [] {
      var h := if a[0].variable == k then [a[0]] else [];
      assert a + b == [a[0]] + (a[1..] + b);
      OnlyForCons(a[0], a[1..] + b, k);
      OnlyForConcat(a[1..], b, k);
      assert a == [a[0]] + a[1..];
      OnlyForCons(a[0], a[1..], k);
      assert h + (OnlyFor(a[1..], k) + OnlyFor(b, k)) == (h + OnlyFor(a[1..], k)) + OnlyFor(b, k);
    } else {
      assert a + b == b && OnlyFor(a, k) + OnlyFor(b, k) == OnlyFor(b, k);
    }
  }

  /** `ts.filter(t => t.variable !== key)`. */
  function WithoutThreshold(ts: seq<Threshold>, key: string): (r: seq<Threshold>)
    ensures forall t :: t in r <==> t in ts && t.variable != key
  {
    if ts == [] then []
    else (if ts[0].variable != key then [ts[0]] else []) + WithoutThreshold(ts[1..], key)
  }

  /** Removing the thresholds for `key` leaves none for `key` and, for every
      other variable, exactly its thresholds in their order. */
  lemma {:induction false} OnlyForWithout(ts: seq<Threshold>, key: string, k: string)
    ensures OnlyFor(WithoutThreshold(ts, key), k) == if k == key then [] else OnlyFor(ts, k)
  {
    if ts != [] {
      OnlyForWithout(ts[1..], key, k);
      var rest := WithoutThreshold(ts[1..], key);
      assert ts == [ts[0]] + ts[1..];
      OnlyForCons(ts[0], ts[1..], k);
      if ts[0].variable != key {
        OnlyForCons(ts[0], rest, k);
      } else {
        assert WithoutThreshold(ts, key) == [] + rest == rest;
        if k != key {
          assert OnlyFor(ts, k) == [] + OnlyFor(ts[1..], k) == OnlyFor(ts[1..], k);
        }
      }
    }
  }

  /** `ts.filter(t => vars.includes(t.variable))`. */
  function ThresholdsFor(ts: seq<Threshold>, vars: seq<string>): (r: seq<Threshold>)
    ensures forall t :: t in r <==> t in ts && t.variable in vars
  {
    if ts == [] then []
    else (if ts[0].variable in vars then [ts[0]] else []) + ThresholdsFor(ts[1..], vars)
  }

  /** Pruning keeps, for every selected variable, exactly its thresholds in
      their order, and drops those of the other variables. */
  lemma {:induction false} OnlyForSelected(ts: seq<Threshold>, vars: seq<string>, k: string)
    ensures OnlyFor(ThresholdsFor(ts, vars), k) == if k in vars then OnlyFor(ts, k) else []
  {
    if ts != [] {
      OnlyForSelected(ts[1..], vars, k);
      var rest := ThresholdsFor(ts[1..], vars);
      assert ts == [ts[0]] + ts[1..];
      OnlyForCons(ts[0], ts[1..], k);
      if ts[0].variable in vars {
        OnlyForCons(ts[0], rest, k);
      } else {
        assert ThresholdsFor(ts, vars) == [] + rest == rest;
        if k in vars {
          assert OnlyFor(ts, k) == [] + OnlyFor(ts[1..], k) == OnlyFor(ts[1..], k);
        }
      }
    }
  }

  /** The `handleAddThreshold` rebuild: earlier thresholds for the same
      variable are dropped and the new one is appended. */
  function WithThreshold(ts: seq<Threshold>, t: Threshold): (r: seq<Threshold>)
    ensures |r| > 0 && r[|r| - 1] == t
    ensures forall x :: x in r <==> x == t || (x in ts && x.variable != t.variable)
  {
    WithoutThreshold(ts, t.variable) + [t]
  }

  /** After adding `t` the only threshold for its variable is `t`, and every
      other variable keeps exactly its thresholds in their order. */
  lemma OnlyForWith(ts: seq<Threshold>, t: Threshold, k: string)
    ensures OnlyFor(WithThreshold(ts, t), k) == if k == t.variable then [t] else OnlyFor(ts, k)
  {
    var kept := WithoutThreshold(ts, t.variable);
    OnlyForConcat(kept, [t], k);
    OnlyForCons(t, [], k);
    OnlyForWithout(ts, t.variable, k);
  }

  /** At most one threshold per variable. */
  predicate OnePerVariable(ts: seq<Threshold>) {
    forall i, j :: 0 <= i < j < |ts| ==> ts[i].variable != ts[j].variable
  }

  lemma OnePerVariableCons(x: Threshold, ts: seq<Threshold>)
    requires OnePerVariable(ts)
    requires forall t :: t in ts ==> t.variable != x.variable
    ensures OnePerVariable([x] + ts)
  {
    var s := [x] + ts;
    forall i, j | 0 <= i < j < |s| ensures s[i].variable != s[j].variable {
      assert s[j] == ts[j - 1];
      if i > 0 {
        assert s[i] == ts[i - 1];
      }
    }
  }

  lemma {:induction false} WithoutKeepsOnePerVariable(ts: seq<Threshold>, key: string)
    requires OnePerVariable(ts)
    ensures OnePerVariable(WithoutThreshold(ts, key))
  {
    if ts != [] {
      var tail := ts[1..];
      assert OnePerVariable(tail) by {
        forall i, j | 0 <= i < j < |tail| ensures tail[i].variable != tail[j].variable {
          assert tail[i] == ts[i + 1] && tail[j] == ts[j + 1];
        }
      }
      WithoutKeepsOnePerVariable(tail, key);
      if ts[0].variable != key {
        forall t | t in WithoutThreshold(tail, key) ensures t.variable != ts[0].variable {
          var j :| 0 <= j < |tail| && tail[j] == t;
          assert ts[j + 1] == t;
        }
        OnePerVariableCons(ts[0], WithoutThreshold(tail, key));
      } else {
        assert WithoutThreshold(ts, key) == [] + WithoutThreshold(tail, key);
      }
    }
  }

  lemma {:induction false} SelectedKeepsOnePerVariable(ts: seq<Threshold>, vars: seq<string>)
    requires OnePerVariable(ts)
    ensures OnePerVariable(ThresholdsFor(ts, vars))
  {
    if ts != [] {
      var tail := ts[1..];
      assert OnePerVariable(tail) by {
        forall i, j | 0 <= i < j < |tail| ensures tail[i].variable != tail[j].variable {
          assert tail[i] == ts[i + 1] && tail[j] == ts[j + 1];
        }
      }
      SelectedKeepsOnePerVariable(tail, vars);
      if ts[0].variable in vars {
        forall t | t in ThresholdsFor(tail, vars) ensures t.variable != ts[0].variable {
          var j :| 0 <= j < |tail| && tail[j] == t;
          assert ts[j + 1] == t;
        }
        OnePerVariableCons(ts[0], ThresholdsFor(tail, vars));
      } else {
        assert ThresholdsFor(ts, vars) == [] + ThresholdsFor(tail, vars);
      }
    }
  }

  /** Adding a threshold to a list with at most one threshold per variable
      keeps it so: an earlier threshold for the same variable is replaced. */
  lemma WithKeepsOnePerVariable(ts: seq<Threshold>, t: Threshold)
    requires OnePerVariable(ts)
    ensures OnePerVariable(WithThreshold(ts, t))
  {
    var kept := WithoutThreshold(ts, t.variable);
    WithoutKeepsOnePerVariable(ts, t.variable);
    var r := kept + [t];
    forall i, j | 0 <= i < j < |r| ensures r[i].variable != r[j].variable {
      if j == |kept| {
        assert r[i] == kept[i] && r[i] in kept;
      } else {
        assert r[i] == kept[i] && r[j] == kept[j];
      }
    }
  }

  // ---------------------------------------------------------------------------
  // The threshold unit

  /** `unit.split('/')[0].trim()`: the label's text before its first '/',
      without surrounding whitespace. */
  function PrimaryUnit(unitLabel: string): (p: string)
    ensures '/' !in p
  {
    TrimKeepsAbsent(BeforeFirst(unitLabel, '/'), '/');
    Trim(BeforeFirst(unitLabel, '/'))
  }

  /** The unit a new threshold carries: the primary unit, with 'Fahrenheit'
      written as 'F'. */
  function ThresholdUnit(unitLabel: string): (u: string)
    ensures '/' !in u
    ensures PrimaryUnit(unitLabel) == "Fahrenheit" ==> u == "F"
    ensures PrimaryUnit(unitLabel) != "Fahrenheit" ==> u == PrimaryUnit(unitLabel)
  {
    var primary := PrimaryUnit(unitLabel);
    if primary == "Fahrenheit" then "F" else primary
  }

  /** The variables the form offers, with the unit label it shows. */
  datatype UiVariable = UiVariable(name: string, key: string, unitLabel: string)

  const UiVariables: seq<UiVariable> := [
    UiVariable("Temperature", "temperature", "Fahrenheit / Kelvin"),
    UiVariable("Precipitation Rate", "precipitation", "mm/hr"),
    UiVariable("Wind Speed (10m)", "windspeed", "m/s"),
    UiVariable("Relative Humidity (2m)", "relative_humidity", "%"),
    UiVariable("Solar Insolation", "solar_insolation", "W/m^2"),
    UiVariable("Solar Radiation", "solar_radiation", "unitless")
  ]

  /** Every variable the form offers is registered on the server, and only the
      temperature threshold is sent in 'F', the one unit the server
      converts. */
  lemma UiUnitsMatchServer()
    ensures forall i :: 0 <= i < |UiVariables| ==> IsKnown(UiVariables[i].key)
    ensures forall i :: 0 <= i < |UiVariables| ==>
              (ThresholdUnit(UiVariables[i].unitLabel) == "F" <==> UiVariables[i].key == Temperature)
  {
    forall i | 0 <= i < |UiVariables|
      ensures IsKnown(UiVariables[i].key)
      ensures ThresholdUnit(UiVariables[i].unitLabel) == "F" <==> UiVariables[i].key == Temperature
    {
      UiEntryUnit(i);
    }
  }

  /** The units the form sends, entry by entry: 'F', 'mm', 'm', '%', 'W' and
      'unitless'. */
  const UiUnits: seq<string> := ["F", "mm", "m", "%", "W", "unitless"]

  /** The `i`-th variable the form offers is registered, and the form sends
      its threshold in the `i`-th of UiUnits; only the first, temperature,
      is in 'F'. */
  lemma UiEntryUnit(i: nat)
    requires i < |UiVariables|
    ensures IsKnown(UiVariables[i].key)
    ensures ThresholdUnit(UiVariables[i].unitLabel) == UiUnits[i]
    ensures ThresholdUnit(UiVariables[i].unitLabel) == "F" <==> i == 0
    ensures UiVariables[i].key == Temperature <==> i == 0
  {
    if i == 0 {
      UnitOfLabel("Fahrenheit / Kelvin", 11, "Fahrenheit", " ");
    } else if i == 1 {
      LabelUnitRate();
    } else if i == 2 {
      LabelUnitSpeed();
    } else if i == 3 {
      LabelUnitPercent();
    } else if i == 4 {
      LabelUnitPower();
    } else {
      LabelUnitless();
    }
  }

  lemma LabelUnitRate() ensures ThresholdUnit("mm/hr") == "mm" { UnitOfLabel("mm/hr", 2, "mm", ""); }
  lemma LabelUnitSpeed() ensures ThresholdUnit("m/s") == "m" { UnitOfLabel("m/s", 1, "m", ""); }
  lemma LabelUnitPercent() ensures ThresholdUnit("%") == "%" { UnitOfLabel("%", 1, "%", ""); }
  lemma LabelUnitPower() ensures ThresholdUnit("W/m^2") == "W" { UnitOfLabel("W/m^2", 1, "W", ""); }
  lemma LabelUnitless() ensures ThresholdUnit("unitless") == "unitless" { UnitOfLabel("unitless", 8, "unitless", ""); }

  /** The unit read from a label whose text before the first '/' is `word`
      followed by whitespace only. */
  lemma UnitOfLabel(text: string, cut: nat, word: string, pad: string)
    requires cut <= |text| && (cut == |text| || text[cut] == '/')
    requires text[..cut] == word + pad && AllWhitespace(pad)
    requires '/' !in word && '/' !in pad
    requires |word| > 0 && !IsWhitespace(word[0]) && !IsWhitespace(word[|word| - 1])
    ensures Trim(BeforeFirst(text, '/')) == word
  {
    assert '/' !in text[..cut] by {
      forall j | 0 <= j < cut ensures text[..cut][j] != '/' {
        if j < |word| {
          assert text[..cut][j] == word[j];
        } else {
          assert text[..cut][j] == pad[j - |word|];
        }
      }
    }
    BeforeSlash(text, cut);
    TrimPadded(word, pad);
  }

  /** `split('/')[0]` stops at the first '/'. */
  lemma BeforeSlash(text: string, cut: nat)
    requires cut <= |text| && (cut == |text| || text[cut] == '/')
    requires '/' !in text[..cut]
    ensures BeforeFirst(text, '/') == text[..cut]
  {
    var b := BeforeFirst(text, '/');
  }

  /** A non-empty all-whitespace prefix starts with whitespace. */
  lemma WhitespacePrefix(s: string, i: nat)
    requires i <= |s| && AllWhitespace(s[..i])
    ensures i == 0 || IsWhitespace(s[0])
  {
    if i > 0 {
      assert s[..i][0] == s[0];
    }
  }

  /** Trimming a word with no surrounding whitespace, followed by whitespace,
      gives the word. */
  lemma TrimPadded(word: string, pad: string)
    requires |word| > 0 && !IsWhitespace(word[0]) && !IsWhitespace(word[|word| - 1])
    requires AllWhitespace(pad)
    ensures Trim(word + pad) == word
  {
    var s := word + pad;
    var r := Trim(s);
    var i :| 0 <= i <= |s| - |r| && s[i..i + |r|] == r && AllWhitespace(s[..i]) && AllWhitespace(s[i + |r|..]);
    WhitespacePrefix(s, i);
    assert r == s[..|word|];
  }

  // ---------------------------------------------------------------------------
  // Validation before submitting or saving

  /** A coordinate as the form state may hold it. */
  datatype Coordinate = Missing | NotANumber | Number(value: real)

  datatype FormLocation = FormLocation(lat: Coordinate, lon: Coordinate)

  /** lat and lon are neither null, undefined nor NaN; `location?.lat` of a
      missing location is undefined. */
  predicate HasCoordinates(location: Option<FormLocation>) {
    location.Some? && location.value.lat.Number? && location.value.lon.Number?
  }

  /** What the form shows in its message area. The texts themselves, which
      embed the key, value and unit, are presentation. */
  datatype Message =
    | NoMessage
    | ThresholdValueNeeded(key: string)
    | ThresholdAdded(key: string, value: real, unit: string)
    | ThresholdRemoved(key: string)
    | SelectVariable
    | EnterCoordinates
    | QuerySucceeded
    | QueryFailed
    | NameNeeded
    | SelectVariableToSave
    | CoordinatesNeededToSave
    | DashboardSaved(name: string)
    | SaveFailed

  /** The message `handleSubmitQuery` stops with, or None when the query may
      be sent. */
  function SubmitRefusal(variables: seq<string>, location: Option<FormLocation>): (m: Option<Message>)
    ensures m.None? <==> |variables| > 0 && HasCoordinates(location)
    ensures m.Some? ==> m.value in {SelectVariable, EnterCoordinates}
  {
    if |variables| == 0 then Some(SelectVariable)
    else if !HasCoordinates(location) then Some(EnterCoordinates)
    else None
  }

  /** The message `handleSaveDashboard` stops with, or None when the
      configuration may be saved: it checks the name first, then what submit
      checks. */
  function SaveRefusal(name: string, variables: seq<string>, location: Option<FormLocation>): (m: Option<Message>)
    ensures m.None? <==> !AllWhitespace(name) && SubmitRefusal(variables, location).None?
  {
    TrimEmptyIff(name);
    if Trim(name) == [] then Some(NameNeeded)
    else if |variables| == 0 then Some(SelectVariableToSave)
    else if !HasCoordinates(location) then Some(CoordinatesNeededToSave)
    else None
  }

  /** The payload `handleSubmitQuery` sends: a copy of the current query. */
  datatype QuerySnapshot = QuerySnapshot(
    location: Option<FormLocation>,
    dayOfYear: int,
    variables: seq<string>,
    thresholds: seq<Threshold>)

  /** The payload `handleSaveDashboard` sends. */
  datatype DashboardData = DashboardData(
    name: string,
    location: string,
    details: Option<FormLocation>,
    dayOfYear: int,
    selectedVariables: seq<string>,
    thresholds: seq<Threshold>)

  /** What the threshold input box holds for a key: its text, and the number
      `parseFloat` reads from it. */
  datatype ThresholdInput = ThresholdInput(text: string, number: real)

  datatype Coord = Lat | Lon

  // ---------------------------------------------------------------------------
  // The form state

  class Form {
    var location: Option<FormLocation>
    var dayOfYear: int
    var variables: seq<string>
    var thresholds: seq<Threshold>
    var message: Message
    var thresholdInput: map<string, ThresholdInput>
    var dashboardName: string

    /** Every threshold belongs to a selected variable, at most one per
        variable, and no variable is selected twice. */
    ghost predicate Valid()
      reads this
    {
      && NoDuplicates(variables)
      && OnePerVariable(thresholds)
      && forall i :: 0 <= i < |thresholds| ==> thresholds[i].variable in variables
    }

    /** The initial query state: Los Angeles, day 1, temperature and
        precipitation selected, no thresholds. */
    constructor()
      ensures Valid()
      ensures location == Some(FormLocation(Number(34.0522), Number(-118.2437)))
      ensures dayOfYear == 1 && variables == ["temperature", "precipitation"] && thresholds == []
      ensures message == NoMessage && thresholdInput == map[] && dashboardName == ""
    {
      location := Some(FormLocation(Number(34.0522), Number(-118.2437)));
      dayOfYear := 1;
      variables := ["temperature", "precipitation"];
      thresholds := [];
      message := NoMessage;
      thresholdInput := map[];
      dashboardName := "";
    }

    /** `handleInputChange` for lat or lon: `parsed` is `parseFloat(value)`
        (None for NaN), and NaN or 0 are stored as 0. A missing location is
        first replaced by an empty one, so the other coordinate is then
        missing. */
    method SetCoordinate(which: Coord, parsed: Option<real>)
      modifies this
      ensures var v := Number(if parsed.Some? then parsed.value else 0.0);
              var base := if old(location).Some? then old(location).value else FormLocation(Missing, Missing);
              location == Some(if which == Lat then base.(lat := v) else base.(lon := v))
      ensures old(HasCoordinates(location)) ==> HasCoordinates(location)
      ensures message == NoMessage
      ensures dayOfYear == old(dayOfYear) && variables == old(variables) && thresholds == old(thresholds)
      ensures thresholdInput == old(thresholdInput) && dashboardName == old(dashboardName)
    {
      message := NoMessage;
      var base := if location.Some? then location.value else FormLocation(Missing, Missing);
      var v := Number(if parsed.Some? then parsed.value else 0.0);
      location := Some(if which == Lat then base.(lat := v) else base.(lon := v));
    }

    /** `handleInputChange` for dayOfYear: `parsed` is `parseInt(value)`
        (None for NaN); NaN or 0 becomes 1. */
    method SetDayOfYear(parsed: Option<int>)
      modifies this
      ensures dayOfYear == (if parsed.None? || parsed.value == 0 then 1 else parsed.value)
      ensures dayOfYear != 0
      ensures message == NoMessage
      ensures location == old(location) && variables == old(variables) && thresholds == old(thresholds)
      ensures thresholdInput == old(thresholdInput) && dashboardName == old(dashboardName)
    {
      message := NoMessage;
      dayOfYear := if parsed.None? || parsed.value == 0 then 1 else parsed.value;
    }

    /** `handleVariableToggle`: select or deselect `key`, and drop the
        thresholds of variables that are no longer selected. */
    method HandleVariableToggle(key: string)
      requires Valid()
      modifies this
      ensures Valid()
      ensures variables == ToggleVariable(old(variables), key)
      ensures thresholds == ThresholdsFor(old(thresholds), variables)
      ensures message == NoMessage
      ensures location == old(location) && dayOfYear == old(dayOfYear)
      ensures thresholdInput == old(thresholdInput) && dashboardName == old(dashboardName)
    {
      ToggleKeepsNoDuplicates(variables, key);
      SelectedKeepsOnePerVariable(thresholds, ToggleVariable(variables, key));
      variables := ToggleVariable(variables, key);
      thresholds := ThresholdsFor(thresholds, variables);
      message := NoMessage;
    }

    /** `handleThresholdChange`: remember what the input box for `key` holds. */
    method HandleThresholdChange(key: string, text: string, number: real)
      modifies this
      ensures thresholdInput == old(thresholdInput)[key := ThresholdInput(text, number)]
      ensures location == old(location) && dayOfYear == old(dayOfYear) && variables == old(variables)
      ensures thresholds == old(thresholds) && message == old(message) && dashboardName == old(dashboardName)
    {
      thresholdInput := thresholdInput[key := ThresholdInput(text, number)];
    }

    /** `handleAddThreshold`: with no value entered for `key` only the message
        changes; otherwise the threshold for `key` is replaced by the new one,
        in the unit the label names. The form keeps its invariant when `key`
        is selected, which is the only time the form offers the button. */
    method HandleAddThreshold(key: string, unitLabel: string)
      requires Valid()
      modifies this
      ensures key !in old(thresholdInput) || old(thresholdInput)[key].text == "" ==>
                thresholds == old(thresholds) && message == ThresholdValueNeeded(key)
      ensures key in old(thresholdInput) && old(thresholdInput)[key].text != "" ==>
                var t := Threshold(key, old(thresholdInput)[key].number, ThresholdUnit(unitLabel));
                thresholds == WithThreshold(old(thresholds), t) && message == ThresholdAdded(key, t.value, t.unit)
      ensures OnePerVariable(thresholds)
      ensures key in variables ==> Valid()
      ensures location == old(location) && dayOfYear == old(dayOfYear) && variables == old(variables)
      ensures thresholdInput == old(thresholdInput) && dashboardName == old(dashboardName)
    {
      if key !in thresholdInput || thresholdInput[key].text == "" {
        message := ThresholdValueNeeded(key);
        return;
      }
      var t := Threshold(key, thresholdInput[key].number, ThresholdUnit(unitLabel));
      WithKeepsOnePerVariable(thresholds, t);
      thresholds := WithThreshold(thresholds, t);
      message := ThresholdAdded(key, t.value, t.unit);
    }

    /** `handleRemoveThreshold`: drop the thresholds for `key`. */
    method HandleRemoveThreshold(key: string)
      requires Valid()
      modifies this
      ensures Valid()
      ensures thresholds == WithoutThreshold(old(thresholds), key)
      ensures message == ThresholdRemoved(key)
      ensures location == old(location) && dayOfYear == old(dayOfYear) && variables == old(variables)
      ensures thresholdInput == old(thresholdInput) && dashboardName == old(dashboardName)
    {
      WithoutKeepsOnePerVariable(thresholds, key);
      thresholds := WithoutThreshold(thresholds, key);
      message := ThresholdRemoved(key);
    }

    /** `handleSubmitQuery`: refused, with nothing sent, when no variable is
        selected or a coordinate is missing or NaN; otherwise the current
        query is sent and the message reports how the request ended
        (`requestSucceeds`). */
    method HandleSubmitQuery(requestSucceeds: bool) returns (sent: Option<QuerySnapshot>)
      modifies this
      ensures var refusal := SubmitRefusal(old(variables), old(location));
              && (refusal.Some? ==> sent.None? && message == refusal.value)
              && (refusal.None? ==> sent == Some(QuerySnapshot(location, dayOfYear, variables, thresholds))
                                    && message == (if requestSucceeds then QuerySucceeded else QueryFailed))
      ensures location == old(location) && dayOfYear == old(dayOfYear) && variables == old(variables)
      ensures thresholds == old(thresholds) && thresholdInput == old(thresholdInput)
      ensures dashboardName == old(dashboardName)
    {
      var refusal := SubmitRefusal(variables, location);
      if refusal.Some? {
        message := refusal.value;
        return None;
      }
      sent := Some(QuerySnapshot(location, dayOfYear, variables, thresholds));
      message := if requestSucceeds then QuerySucceeded else QueryFailed;
    }

    /** `handleSaveDashboard`: refused, with nothing sent, when the name is
        blank, no variable is selected or a coordinate is missing or NaN;
        otherwise the configuration is sent with the name trimmed. Once the
        dashboard is created (`createSucceeds`) the name box is cleared and
        the success message shows; the list refresh that follows catches its
        own errors, so it cannot turn a created dashboard into a failure. */
    method HandleSaveDashboard(createSucceeds: bool) returns (sent: Option<DashboardData>)
      modifies this
      ensures var refusal := SaveRefusal(old(dashboardName), old(variables), old(location));
              && (refusal.Some? ==> sent.None? && message == refusal.value && dashboardName == old(dashboardName))
              && (refusal.None? ==>
                    && sent == Some(DashboardData(Trim(old(dashboardName)), "Pin", location, dayOfYear, variables, thresholds))
                    && dashboardName == (if createSucceeds then "" else old(dashboardName))
                    && message == (if createSucceeds then DashboardSaved(Trim(old(dashboardName))) else SaveFailed))
      ensures location == old(location) && dayOfYear == old(dayOfYear) && variables == old(variables)
      ensures thresholds == old(thresholds) && thresholdInput == old(thresholdInput)
    {
      var refusal := SaveRefusal(dashboardName, variables, location);
      if refusal.Some? {
        message := refusal.value;
        return None;
      }
      var name := Trim(dashboardName);
      sent := Some(DashboardData(name, "Pin", location, dayOfYear, variables, thresholds));
      if createSucceeds {
        dashboardName := "";
      }
      message := if createSucceeds then DashboardSaved(name) else SaveFailed;
    }
  }
}
