/** The variable registry (`NASA_DATA_CONFIG`) and the value ranges the
    simulated sample generator draws from. */
module Registry {
  import opened JsStrings

  /** One registry entry: the NASA short code, the canonical unit and the
      source label. (The `endpoint` URL is built from an environment variable
      and never used, so it is not part of the model.) */
  datatype VariableConfig = VariableConfig(variable: string, unit: string, source: string)

  const Temperature: string := "temperature"

  /** The six keys the registry knows, in declaration order. */
  const RegistryKeys: seq<string> :=
    ["temperature", "precipitation", "windspeed", "solar_radiation", "relative_humidity", "solar_insolation"]

  /** The registry's own entry for `key`, or None for a key it does not
      hold. */
  function Config(key: string): (c: Option<VariableConfig>)
    ensures c.Some? <==> key in RegistryKeys
    ensures key == Temperature ==> c == Some(VariableConfig("AirTemp_Mean", "K", "GES_DISC_Dataset_XYZ"))
  {
    match key
    case "temperature" => Some(VariableConfig("AirTemp_Mean", "K", "GES_DISC_Dataset_XYZ"))
    case "precipitation" => Some(VariableConfig("Rainfall_Rate", "mm/hr", "Giovanni_TRMM_Dataset"))
    case "windspeed" => Some(VariableConfig("WS10M", "m/s", "Worldview_Dataset_ABC"))
    case "solar_radiation" => Some(VariableConfig("ALLSKY_KT", "unitless", "CERES_SYN_Dataset"))
    case "relative_humidity" => Some(VariableConfig("RH2M", "%", "MODIS_Atmosphere_Data"))
    case "solar_insolation" => Some(VariableConfig("ALLSKY_SFC_SW_DWN", "W/m^2", "CERES_SYN_Dataset"))
    case _ => None
  }

  predicate IsKnown(key: string) {
    Config(key).Some?
  }

  /** The names every object literal inherits from `Object.prototype`. A
      lookup of one of them in the registry finds a built-in function (for
      `__proto__`, the prototype object itself) instead of undefined. */
  const PrototypeNames: seq<string> := [
    "constructor", "hasOwnProperty", "isPrototypeOf", "propertyIsEnumerable",
    "toLocaleString", "toString", "valueOf", "__defineGetter__",
    "__defineSetter__", "__lookupGetter__", "__lookupSetter__", "__proto__"]

  /** The three outcomes of the property access `NASA_DATA_CONFIG[key]`. */
  datatype Lookup = Own(config: VariableConfig) | Inherited | Undefined

  /** `NASA_DATA_CONFIG[key]`: the registry's own entry, else an inherited
      member, else undefined. */
  function LookupConfig(key: string): (l: Lookup)
    ensures l.Own? <==> key in RegistryKeys
    ensures l.Own? ==> Config(key) == Some(l.config)
    ensures l.Inherited? <==> key in PrototypeNames
  {
    if Config(key).Some? then Own(Config(key).value)
    else if key in PrototypeNames then Inherited
    else Undefined
  }

  /** `!config` is false, so the controller's loop body runs for `key`. */
  predicate ConfigTruthy(key: string) {
    !LookupConfig(key).Undefined?
  }

  // ---------------------------------------------------------------------------
  // The simulated sample series

  /** Every simulated series has this many samples, one per past year. */
  const SampleCount: nat := 10

  /** `Math.random() * width + low` lies in [low, low + width). */
  datatype SampleRange = SampleRange(low: real, width: real)

  /** The generator's range for `key`, following its if/else-if chain; None
      when no branch applies (the series then stays empty). */
  function RangeOf(key: string): (r: Option<SampleRange>)
    ensures r.Some? <==> IsKnown(key)
    ensures r.Some? ==> r.value.width > 0.0
  {
    if key == "temperature" then Some(SampleRange(273.15, 50.0))
    else if key == "precipitation" || key == "windspeed" then Some(SampleRange(0.5, 10.0))
    else if key == "relative_humidity" then Some(SampleRange(20.0, 60.0))
    else if key == "solar_insolation" then Some(SampleRange(200.0, 500.0))
    else if key == "solar_radiation" then Some(SampleRange(0.3, 0.5))
    else None
  }

  /** What the generator promises about the series it returns for a known key:
      SampleCount samples, each inside the key's range. The model takes any
      such series as the outcome of `Math.random`. */
  predicate SimulatedSeries(key: string, s: seq<real>) {
    && RangeOf(key).Some?
    && |s| == SampleCount
    && forall i :: 0 <= i < |s| ==> RangeOf(key).value.low <= s[i] < RangeOf(key).value.low + RangeOf(key).value.width
  }
}
