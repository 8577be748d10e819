/** The device's wire format: the telemetry decoder `Laifen.parse_data`, the
    frame test at the head of `Laifen.notification_handler`, and the two command
    frames sent by `turn_on` and `turn_off`. */
module Codec {
  import opened Wrappers
  import opened PyText
  import opened Hex

  /** The fields of a frame `parse_data` could decode, as its dict holds them. */
  datatype Decoded = Decoded(
    status: string,          // "Running" or "Idle"
    vibrationStrength: nat,
    oscillationRange: nat,
    oscillationSpeed: nat,
    modeIndex: nat,          // 0-based; the dict holds str(modeIndex + 1) as "mode"
    batteryLevel: nat,
    brushingSeconds: nat)    // the dict holds brushingSeconds / 60 (true division)

  /** The dict `parse_data` returns: the hex it read (`raw_data`) and either
      every field, or every field None (the "unknown" sentinel). */
  datatype Reading = Reading(rawData: string, decoded: Option<Decoded>)

  /** The four bytes a telemetry notification starts with: hex `aa0a0215`. */
  const PREAMBLE: seq<Byte> := [0xAA, 0x0A, 0x02, 0x15]

  /** The 0-based mode index: the low nibble of byte 4 (hex character 9). */
  function ModeIndex(d: seq<Byte>): nat
    requires |d| > 4
  {
    d[4] % 16
  }

  /** The brushing-time counter: bytes 20 and 21, most significant first. */
  function Seconds(d: seq<Byte>): nat
    requires |d| >= 22
  {
    d[20] as int * 256 + d[21] as int
  }

  /** The status flag: the low nibble of byte 23 (hex character 47) is 1. */
  predicate Running(d: seq<Byte>)
    requires |d| >= 24
  {
    d[23] % 16 == 1
  }

  /** The frames `parse_data` decodes: long enough for hex character 47 and
      for the three bytes of the active mode's settings. */
  predicate Decodable(d: seq<Byte>) {
    |d| >= 24 && 8 + 3 * ModeIndex(d) <= |d|
  }

  /** The reading a decodable frame holds, stated on bytes: status from the low
      nibble of byte 23, battery byte 18, brushing seconds in bytes 20-21
      big-endian, and the active mode's settings in bytes 5+3m, 6+3m, 7+3m. */
  function Layout(d: seq<Byte>): (r: Decoded)
    requires Decodable(d)
  {
    var m := ModeIndex(d);
    Decoded(
      if Running(d) then "Running" else "Idle",
      d[5 + 3 * m], d[6 + 3 * m], d[7 + 3 * m],
      m,
      d[18],
      Seconds(d))
  }

  /** The body of `parse_data`'s try block on the hex string, in its order;
      `None` is any exception it raises (IndexError, or ValueError from `int`
      on an empty slice), all of which the block turns into the sentinel. */
  function DecodeHex(dataStr: string): (r: Option<Decoded>)
    ensures r.Some? ==> 47 < |dataStr| && r.value.modeIndex < 16 && 14 + 6 * r.value.modeIndex < |dataStr|
  {
    var statusChar :- CharAt(dataStr, 47);
    var status := if statusChar == '1' then "Running" else "Idle";
    var modeChar := dataStr[9];  // cannot raise once character 47 exists
    var modeNumber :- DigitValue(modeChar);  // int(c, 16) of one character
    var batteryLevel :- HexField(dataStr, 36, 38);
    var seconds :- HexField(dataStr, 40, 44);
    // the source parses the mode character a second time, to the same index
    var settings :- ModeSettings(dataStr, modeNumber);
    Some(Decoded(status, settings.0, settings.1, settings.2, modeNumber, batteryLevel, seconds))
  }

  /** `int(data_str[i:j], 16)`. */
  function HexField(dataStr: string, i: nat, j: nat): (r: Option<nat>)
    ensures r.Some? ==> i < j && i < |dataStr|
  {
    ParseHexInt(Slice(dataStr, i, j))
  }

  /** Vibration strength, oscillation range and oscillation speed of mode `m`:
      three hex pairs from character 10 + 6m on. */
  function ModeSettings(dataStr: string, m: nat): (r: Option<(nat, nat, nat)>)
    ensures r.Some? ==> 14 + 6 * m < |dataStr|
  {
    var vibrationStrength :- HexField(dataStr, 10 + m * 6, 12 + m * 6);
    var oscillationRange :- HexField(dataStr, 12 + m * 6, 14 + m * 6);
    var oscillationSpeed :- HexField(dataStr, 14 + m * 6, 16 + m * 6);
    Some((vibrationStrength, oscillationRange, oscillationSpeed))
  }

  /** Only the digit `1` is the nibble 1. */
  lemma DigitOne(n: nat)
    requires n < 16
    ensures HexDigit(n) == '1' <==> n == 1
  {
  }

  /** `s` spells the bytes of `d` as `bytes.hex()` does. */
  predicate HexOf(s: string, d: seq<Byte>) {
    && |s| == 2 * |d|
    && forall i :: 0 <= i < |d| ==> s[2 * i] == HexDigit(d[i] / 16) && s[2 * i + 1] == HexDigit(d[i] % 16)
  }

  lemma HexOfToHex(d: seq<Byte>)
    ensures HexOf(ToHex(d), d)
  {
    forall i | 0 <= i < |d|
      ensures ToHex(d)[2 * i] == HexDigit(d[i] / 16) && ToHex(d)[2 * i + 1] == HexDigit(d[i] % 16)
    {
      ToHexAt(d, i);
    }
  }

  /** Decoding the hex of a frame succeeds exactly on decodable frames and
      then yields the byte layout. */
  lemma DecodeHexOfBytes(d: seq<Byte>)
    ensures DecodeHex(ToHex(d)) == if Decodable(d) then Some(Layout(d)) else None
  {
    HexOfToHex(d);
    DecodeOfHex(ToHex(d), d);
  }

  /** The same, for any string that spells the frame. */
  lemma DecodeOfHex(s: string, d: seq<Byte>)
    requires HexOf(s, d)
    ensures DecodeHex(s) == if Decodable(d) then Some(Layout(d)) else None
  {
    if |d| < 24 {
      assert CharAt(s, 47) == None;
    } else {
      HeaderFacts(s, d);
      if Decodable(d) {
        SettingsFacts(s, d);
        DecodeOfFacts(s, d);
      } else {
        SettingsMissing(s, d);
        DecodeTruncated(s, Running(d), ModeIndex(d), d[18], Seconds(d));
      }
    }
  }

  /** The fields read before the mode's settings, on a frame of at least 24 bytes. */
  predicate HeaderRead(s: string, d: seq<Byte>)
    requires |d| >= 24
  {
    && CharAt(s, 47).Some? && (CharAt(s, 47).value == '1' <==> Running(d))
    && CharAt(s, 9).Some? && DigitValue(CharAt(s, 9).value) == Some(ModeIndex(d))
    && HexField(s, 36, 38) == Some(d[18] as nat)
    && HexField(s, 40, 44) == Some(Seconds(d))
  }

  lemma HeaderFacts(s: string, d: seq<Byte>)
    requires HexOf(s, d) && |d| >= 24
    ensures HeaderRead(s, d)
  {
    StatusAt(s, d);
    ModeAt(s, d);
    PairAt(s, d, 18, 36, 38);
    SecondsAt(s, d);
  }

  lemma SettingsFacts(s: string, d: seq<Byte>)
    requires HexOf(s, d) && Decodable(d)
    ensures ModeSettings(s, ModeIndex(d)) == Some((d[5 + 3 * ModeIndex(d)] as nat, d[6 + 3 * ModeIndex(d)] as nat, d[7 + 3 * ModeIndex(d)] as nat))
  {
    PairAt(s, d, 5 + 3 * ModeIndex(d), 10 + ModeIndex(d) * 6, 12 + ModeIndex(d) * 6);
    PairAt(s, d, 6 + 3 * ModeIndex(d), 12 + ModeIndex(d) * 6, 14 + ModeIndex(d) * 6);
    PairAt(s, d, 7 + 3 * ModeIndex(d), 14 + ModeIndex(d) * 6, 16 + ModeIndex(d) * 6);
    SettingsFromFields(s, ModeIndex(d), d[5 + 3 * ModeIndex(d)], d[6 + 3 * ModeIndex(d)], d[7 + 3 * ModeIndex(d)]);
  }

  lemma DecodeOfFacts(s: string, d: seq<Byte>)
    requires Decodable(d) && HeaderRead(s, d)
    requires ModeSettings(s, ModeIndex(d)) == Some((d[5 + 3 * ModeIndex(d)] as nat, d[6 + 3 * ModeIndex(d)] as nat, d[7 + 3 * ModeIndex(d)] as nat))
    ensures DecodeHex(s) == Some(Layout(d))
  {
    DecodeFromParts(s, Running(d), ModeIndex(d), d[18], Seconds(d),
                    (d[5 + 3 * ModeIndex(d)] as nat, d[6 + 3 * ModeIndex(d)] as nat, d[7 + 3 * ModeIndex(d)] as nat));
    LayoutFields(d);
  }

  /** The layout of a decodable frame, field by field. */
  lemma LayoutFields(d: seq<Byte>)
    requires Decodable(d)
    ensures var m := ModeIndex(d);
      Layout(d) == Decoded(if Running(d) then "Running" else "Idle",
                           d[5 + 3 * m] as nat, d[6 + 3 * m] as nat, d[7 + 3 * m] as nat,
                           m, d[18] as nat, Seconds(d))
  {
  }

  /** The status character: hex character 47, the low nibble of byte 23. */
  lemma StatusAt(s: string, d: seq<Byte>)
    requires HexOf(s, d) && |d| >= 24
    ensures CharAt(s, 47).Some? && (CharAt(s, 47).value == '1' <==> Running(d))
  {
    assert s[2 * 23 + 1] == HexDigit(d[23] % 16);
    DigitOne(d[23] % 16);
  }

  /** The mode character: hex character 9, the low nibble of byte 4. */
  lemma ModeAt(s: string, d: seq<Byte>)
    requires HexOf(s, d) && |d| >= 24
    ensures CharAt(s, 9).Some? && DigitValue(CharAt(s, 9).value) == Some(ModeIndex(d))
  {
    assert s[2 * 4 + 1] == HexDigit(d[4] % 16);
  }

  /** The brushing-time counter: hex characters 40-43, bytes 20-21 big-endian. */
  lemma SecondsAt(s: string, d: seq<Byte>)
    requires HexOf(s, d) && |d| >= 24
    ensures HexField(s, 40, 44) == Some(Seconds(d))
  {
    var h := Slice(s, 40, 44);
    SliceWithin(s, 40, 44);
    assert h == [s[2 * 20], s[2 * 20 + 1], s[2 * 21], s[2 * 21 + 1]];
    QuadValue(h, d[20], d[21]);
  }

  /** Hex characters 2i and 2i+1 read as byte i. */
  lemma PairAt(s: string, d: seq<Byte>, i: nat, lo: nat, hi: nat)
    requires HexOf(s, d) && i < |d| && lo == 2 * i && hi == lo + 2
    ensures HexField(s, lo, hi) == Some(d[i] as nat)
  {
    var h := Slice(s, lo, hi);
    SliceWithin(s, lo, hi);
    assert h == [s[2 * i], s[2 * i + 1]];
    PairValue(h, d[i]);
  }

  /** A frame too short for its mode: the speed slice is empty, which
      `int(_, 16)` rejects. */
  lemma SettingsMissing(s: string, d: seq<Byte>)
    requires HexOf(s, d) && |d| >= 24 && !Decodable(d)
    ensures ModeSettings(s, ModeIndex(d)) == None
  {
    var m := ModeIndex(d);
    assert Slice(s, 14 + m * 6, 16 + m * 6) == [];
    assert HexField(s, 14 + m * 6, 16 + m * 6) == None;
  }

  lemma SettingsFromFields(s: string, m: nat, vibration: nat, range: nat, speed: nat)
    requires HexField(s, 10 + m * 6, 12 + m * 6) == Some(vibration)
    requires HexField(s, 12 + m * 6, 14 + m * 6) == Some(range)
    requires HexField(s, 14 + m * 6, 16 + m * 6) == Some(speed)
    ensures ModeSettings(s, m) == Some((vibration, range, speed))
  {
  }

  /** `DecodeHex` once every field it reads is known. */
  lemma DecodeFromParts(s: string, running: bool, modeNumber: nat,
                        batteryLevel: nat, seconds: nat, settings: (nat, nat, nat))
    requires CharAt(s, 47).Some? && (CharAt(s, 47).value == '1' <==> running)
    requires CharAt(s, 9).Some? && DigitValue(CharAt(s, 9).value) == Some(modeNumber)
    requires HexField(s, 36, 38) == Some(batteryLevel) && HexField(s, 40, 44) == Some(seconds)
    requires ModeSettings(s, modeNumber) == Some(settings)
    ensures DecodeHex(s) == Some(Decoded(if running then "Running" else "Idle",
                                         settings.0, settings.1, settings.2, modeNumber,
                                         batteryLevel, seconds))
  {
  }

  /** `DecodeHex` when every field before the mode's settings reads, but those do not. */
  lemma DecodeTruncated(s: string, running: bool, modeNumber: nat, batteryLevel: nat, seconds: nat)
    requires CharAt(s, 47).Some? && (CharAt(s, 47).value == '1' <==> running)
    requires CharAt(s, 9).Some? && DigitValue(CharAt(s, 9).value) == Some(modeNumber)
    requires HexField(s, 36, 38) == Some(batteryLevel) && HexField(s, 40, 44) == Some(seconds)
    requires ModeSettings(s, modeNumber) == None
    ensures DecodeHex(s) == None
  {
  }

  /** `parse_data(data)`: never raises. `None` gives the sentinel with empty
      `raw_data`; bytes give their hex as `raw_data`, and every field exactly
      when the frame is decodable, the sentinel otherwise. */
  function ParseData(data: Option<seq<Byte>>): (r: Reading)
    ensures data.None? ==> r == Reading("", None)
    ensures data.Some? ==> r.rawData == ToHex(data.value)
    ensures data.Some? ==> r.decoded == if Decodable(data.value) then Some(Layout(data.value)) else None
  {
    if data.None? then Reading("", None)
    else
      var dataStr := ToHex(data.value);
      DecodeHexOfBytes(data.value);
      Reading(dataStr, DecodeHex(dataStr))
  }

  /** The hex of a frame starts with `aa0a0215` exactly when its first four bytes are the preamble. */
  lemma PreambleOnBytes(d: seq<Byte>)
    ensures StartsWith(ToHex(d), "aa0a0215") <==> |d| >= 4 && d[..4] == PREAMBLE
  {
    var s := ToHex(d);
    assert ToHex(PREAMBLE) == "aa0a0215";
    if |d| >= 4 {
      ToHexSlice(d, 0, 4);
      if s[..8] == "aa0a0215" {
        ToHexInjective(d[..4], PREAMBLE);
      }
    }
  }

  /** The test `notification_handler` applies before parsing: the hex starts
      with `aa0a0215` and has at least 50 characters. On bytes: at least 25
      bytes, the first four being the preamble. */
  function Accepts(data: seq<Byte>): (ok: bool)
    ensures ok <==> |data| >= 25 && data[..4] == PREAMBLE
  {
    var dataStr := ToHex(data);
    PreambleOnBytes(data);
    StartsWith(dataStr, "aa0a0215") && |dataStr| >= 50
  }

  /** An accepted 25-byte frame whose mode nibble is 6 or more does not decode,
      so the handler stores the sentinel. */
  lemma AcceptedButNotDecodable(d: seq<Byte>)
    requires |d| == 25 && d[..4] == PREAMBLE && d[4] % 16 >= 6
    ensures Accepts(d)
    ensures ParseData(Some(d)) == Reading(ToHex(d), None)
  {
  }

  /** The two commands of the device. */
  datatype Command = TurnOn | TurnOff

  /** The literal `turn_on` and `turn_off` pass to `bytes.fromhex`. */
  function CommandHex(c: Command): (s: string)
    ensures |s| == 12 && forall k :: 0 <= k < |s| ==> DigitValue(s[k]).Some?
  {
    match c
    case TurnOn => "AA0F010101A4"
    case TurnOff => "AA0F010100A5"
  }

  /** Bitwise exclusive or of two naturals, bit by bit from the lowest. */
  function XorBits(a: nat, b: nat): nat
    decreases a + b
  {
    if a == 0 then b
    else if b == 0 then a
    else (if a % 2 == b % 2 then 0 else 1) + 2 * XorBits(a / 2, b / 2)
  }

  /** XOR of a run of bytes, folded from the left. */
  function Xor(bs: seq<Byte>): nat
  {
    if bs == [] then 0 else XorBits(Xor(bs[..|bs| - 1]), bs[|bs| - 1])
  }

  lemma XorSnoc(bs: seq<Byte>, b: Byte)
    ensures Xor(bs + [b]) == XorBits(Xor(bs), b)
  {
    assert (bs + [b])[..|bs + [b]| - 1] == bs;
  }

  /** The XOR of the four header bytes every command starts with. */
  lemma HeadXor()
    ensures Xor([0xAA, 0x0F, 0x01, 0x01]) == 0xA5
  {
    XorSnoc([], 0xAA);
    assert [] + [0xAA] == [0xAA];
    XorSnoc([0xAA], 0x0F);
    assert [0xAA] + [0x0F] == [0xAA, 0x0F];
    XorSnoc([0xAA, 0x0F], 0x01);
    assert [0xAA, 0x0F] + [0x01] == [0xAA, 0x0F, 0x01];
    XorSnoc([0xAA, 0x0F, 0x01], 0x01);
    assert [0xAA, 0x0F, 0x01] + [0x01] == [0xAA, 0x0F, 0x01, 0x01];
  }

  /** The frame sent for a command: `AA 0F 01 01`, then 1 for on or 0 for
      off, then a check byte equal to the XOR of the first five. */
  function CommandBytes(c: Command): (frame: seq<Byte>)
    ensures |frame| == 6 && frame[..4] == [0xAA, 0x0F, 0x01, 0x01]
    ensures frame[4] == if c == TurnOn then 1 else 0
    ensures frame[5] == Xor(frame[..5])
  {
    var head := [0xAA, 0x0F, 0x01, 0x01];
    HeadXor();
    match c
    case TurnOn =>
      var f := head + [0x01, 0xA4];
      XorSnoc(head, 0x01);
      assert f[..5] == head + [0x01];
      f
    case TurnOff =>
      var f := head + [0x00, 0xA5];
      XorSnoc(head, 0x00);
      assert f[..5] == head + [0x00];
      f
  }

  /** `bytes.fromhex` of the literal in `turn_on` / `turn_off` is that command's frame. */
  lemma CommandLiteral(c: Command)
    ensures FromHex(CommandHex(c)) == Some(CommandBytes(c))
  {
    var s, f := CommandHex(c), CommandBytes(c);
    forall i | 0 <= i < 6
      ensures DigitValue(s[2 * i]) == Some(f[i] / 16) && DigitValue(s[2 * i + 1]) == Some(f[i] % 16)
    {
    }
    FromHexPairs(s, f);
  }

  /** A value in the dict `parse_data` returns. */
  datatype Value = NoneValue | Text(s: string) | Int(i: int) | Float(x: real)

  /** The keys of that dict. */
  const KEYS: seq<string> := ["raw_data", "status", "vibration_strength", "oscillation_range",
                              "oscillation_speed", "mode", "battery_level", "brushing_time"]

  /** `reading[key]`; `None` is the KeyError of a key the dict lacks. The
      sentinel holds every key, with None everywhere but `raw_data`. */
  function Lookup(r: Reading, key: string): (v: Option<Value>)
    ensures v.Some? <==> key in KEYS
    ensures key == "raw_data" ==> v == Some(Text(r.rawData))
    ensures r.decoded.None? && key in KEYS[1..] ==> v == Some(NoneValue)
  {
    if key == "raw_data" then Some(Text(r.rawData))
    else if key !in KEYS then None
    else match r.decoded
      case None => Some(NoneValue)
      case Some(f) =>
        Some(if key == "status" then Text(f.status)
             else if key == "vibration_strength" then Int(f.vibrationStrength)
             else if key == "oscillation_range" then Int(f.oscillationRange)
             else if key == "oscillation_speed" then Int(f.oscillationSpeed)
             else if key == "mode" then Text(IntToString(f.modeIndex + 1))
             else if key == "battery_level" then Int(f.batteryLevel)
             else Float(f.brushingSeconds as real / 60.0))
  }

  /** `reading.get(key)`: None (the Python value) for a key the dict lacks. */
  function Get(r: Reading, key: string): (v: Value)
    ensures key in KEYS ==> Lookup(r, key) == Some(v)
    ensures key !in KEYS ==> v == NoneValue
  {
    match Lookup(r, key)
    case Some(v) => v
    case None => NoneValue
  }
}
