/** `LaifenSensor.native_value`: what each of the five sensors shows for the
    device's latest reading, with the last shown value kept for the times
    the device holds no reading. */
module Sensor {
  import opened Wrappers
  import opened PyText
  import opened Hex
  import opened Codec
  import opened Device

  /** The keys of the registered sensors, in registration order. */
  const SENSORS: seq<string> := ["status", "vibration_strength", "oscillation_range", "oscillation_speed", "mode"]

  /** The keys whose sensor shows the reading's value unchanged. */
  const NUMERIC: seq<string> := ["vibration_strength", "oscillation_range", "oscillation_speed"]

  /** The mode sensor's mapping, as written: `"0"` to `"3"` become `"1"` to
      `"4"`, anything else is shown unchanged. */
  function ModeShown(value: Value): (shown: Value)
    ensures shown != Text("0")
    ensures shown.Text? <==> value.Text?
    ensures value.Text? && |value.s| != 1 ==> shown == value
  {
    if value == Text("0") then Text("1")
    else if value == Text("1") then Text("2")
    else if value == Text("2") then Text("3")
    else if value == Text("3") then Text("4")
    else value
  }

  /** What `native_value` shows for sensor `key` when the device holds the
      reading `r`, as written. `None` is the KeyError the final subscript
      raises for a key the reading lacks. */
  function Displayed(key: string, r: Reading): (shown: Option<Value>)
    ensures shown.None? <==> key !in KEYS
    ensures key == "status" ==> shown == Some(Text("Running")) || shown == Some(Text("Idle"))
  {
    if key == "status" then Some(if Get(r, "status") == Text("1") then Text("Running") else Text("Idle"))
    else if key in NUMERIC then Some(Get(r, key))
    else if key == "mode" then Some(ModeShown(Get(r, "mode")))
    else Lookup(r, key)
  }

  /** Every registered sensor shows something, so none reaches the final
      subscript; numeric sensors show the reading's value, None included. */
  lemma RegisteredSensorsShow(key: string, r: Reading)
    requires key in SENSORS
    ensures Displayed(key, r).Some?
    ensures key in NUMERIC ==> Displayed(key, r) == Some(Get(r, key))
    ensures key in NUMERIC && r.decoded.None? ==> Displayed(key, r) == Some(NoneValue)
  {
    assert key in KEYS[1..];
  }

  /** The status sensor, as written, shows "Idle" for every reading
      `parse_data` can produce, since that reading's status is "Running",
      "Idle" or None and never "1". */
  lemma StatusSensorAlwaysIdle(data: Option<seq<Byte>>)
    ensures Displayed("status", ParseData(data)) == Some(Text("Idle"))
  {
    var r := ParseData(data);
    if r.decoded.Some? {
      assert data.Some? && Decodable(data.value);
      assert r.decoded.value.status == (if Running(data.value) then "Running" else "Idle");
    }
  }

  /** Yet the reading of a running brush says "Running". */
  lemma RunningReading(d: seq<Byte>)
    requires Decodable(d) && Running(d)
    ensures Get(ParseData(Some(d)), "status") == Text("Running")
  {
  }

  /** The mode value of a decodable frame is `str(m + 1)`. */
  lemma ModeValue(d: seq<Byte>)
    requires Decodable(d)
    ensures Get(ParseData(Some(d)), "mode") == Text(IntToString(ModeIndex(d) + 1))
  {
  }

  /** The mode sensor, as written, adds one a second time to the first
      three modes: mode index `m` shows `m + 2` for `m < 3`, and `m + 1`
      from there on. */
  lemma ModeSensorShifted(d: seq<Byte>)
    requires Decodable(d)
    ensures Displayed("mode", ParseData(Some(d))) ==
      Some(Text(IntToString(if ModeIndex(d) < 3 then ModeIndex(d) + 2 else ModeIndex(d) + 1)))
  {
    ModeValue(d);
    ModeShownOfNumeral(ModeIndex(d) + 1);
  }

  /** The mapping on the numeral of `n >= 1`: `n + 1` up to 3, `n` after. */
  lemma ModeShownOfNumeral(n: nat)
    requires n >= 1
    ensures ModeShown(Text(IntToString(n))) == Text(IntToString(if n <= 3 then n + 1 else n))
  {
    SingleDigitString(n, 0);
    SingleDigitString(n, 1);
    SingleDigitString(n, 2);
    SingleDigitString(n, 3);
    assert IntToString(2) == "2" && IntToString(3) == "3" && IntToString(4) == "4";
  }

  /** Hence two different modes, index 2 and index 3, both show "4". */
  lemma ModeSensorCollides(d2: seq<Byte>, d3: seq<Byte>)
    requires Decodable(d2) && ModeIndex(d2) == 2
    requires Decodable(d3) && ModeIndex(d3) == 3
    ensures Displayed("mode", ParseData(Some(d2))) == Some(Text("4"))
    ensures Displayed("mode", ParseData(Some(d3))) == Some(Text("4"))
  {
    ModeSensorShifted(d2);
    ModeSensorShifted(d3);
  }

  /** The display the two sensors evidently intend: the status sensor shows
      "Running" for a "Running" reading, and the mode sensor shows the mode
      `parse_data` already numbered from 1. */
  function IntendedDisplayed(key: string, r: Reading): Option<Value>
  {
    if key == "status" then Some(if Get(r, "status") == Text("Running") then Text("Running") else Text("Idle"))
    else if key == "mode" then Some(Get(r, "mode"))
    else Displayed(key, r)
  }

  /** The intended status sensor shows "Running" exactly for decodable
      frames whose status nibble is 1. */
  lemma IntendedStatusShown(data: Option<seq<Byte>>)
    ensures IntendedDisplayed("status", ParseData(data)) ==
      Some(Text(if data.Some? && Decodable(data.value) && Running(data.value) then "Running" else "Idle"))
  {
    var r := ParseData(data);
    if r.decoded.Some? {
      assert data.Some? && Decodable(data.value);
      assert r.decoded.value.status == (if Running(data.value) then "Running" else "Idle");
    }
  }

  /** The intended mode sensor shows `str(m + 1)`, so distinct modes show
      distinct values. */
  lemma IntendedModeShown(d: seq<Byte>, e: seq<Byte>)
    requires Decodable(d) && Decodable(e)
    ensures IntendedDisplayed("mode", ParseData(Some(d))) == Some(Text(IntToString(ModeIndex(d) + 1)))
    ensures IntendedDisplayed("mode", ParseData(Some(d))) == IntendedDisplayed("mode", ParseData(Some(e)))
            <==> ModeIndex(d) == ModeIndex(e)
  {
    ModeValue(d);
    ModeValue(e);
    if IntToString(ModeIndex(d) + 1) == IntToString(ModeIndex(e) + 1) {
      IntToStringInjective(ModeIndex(d) + 1, ModeIndex(e) + 1);
    }
  }

  /** One sensor entity of a device. */
  class LaifenSensor {
    const key: string
    const device: Laifen
    var lastValidValue: Value

    constructor (device: Laifen, key: string)
      ensures this.device == device && this.key == key
      ensures lastValidValue == NoneValue
    {
      this.device := device;
      this.key := key;
      lastValidValue := NoneValue;
    }

    /** `native_value`: the cached value while the device holds no reading;
        otherwise the displayed value, which is also cached. `None` is the
        KeyError of the final subscript, which leaves the cache alone. */
    method NativeValue() returns (shown: Option<Value>)
      modifies this`lastValidValue
      ensures device.result.None? ==> shown == Some(old(lastValidValue)) && lastValidValue == old(lastValidValue)
      ensures device.result.Some? ==> shown == Displayed(key, device.result.value)
      ensures device.result.Some? && shown.Some? ==> lastValidValue == shown.value
      ensures shown.None? ==> lastValidValue == old(lastValidValue)
    {
      if device.result.None? {
        return Some(lastValidValue);
      }
      var r := device.result.value;
      if key == "status" {
        var value := Get(r, "status");
        lastValidValue := if value == Text("1") then Text("Running") else Text("Idle");
        return Some(lastValidValue);
      } else if key == "vibration_strength" || key == "oscillation_range" || key == "oscillation_speed" {
        var value := Get(r, key);
        lastValidValue := value;
        return Some(value);
      } else if key == "mode" {
        var value := Get(r, "mode");
        if value == Text("0") {
          lastValidValue := Text("1");
        } else if value == Text("1") {
          lastValidValue := Text("2");
        } else if value == Text("2") {
          lastValidValue := Text("3");
        } else if value == Text("3") {
          lastValidValue := Text("4");
        } else {
          lastValidValue := value;
        }
        return Some(lastValidValue);
      }
      var value := Lookup(r, key);
      if value.None? {
        return None;
      }
      lastValidValue := value.value;
      shown := value;
    }
  }
}
