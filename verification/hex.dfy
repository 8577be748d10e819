/** Python's `bytes.hex()` and `bytes.fromhex()`, and the value of a run of
    bytes read most significant first. */
module Hex {
  import opened Wrappers
  import opened PyText

  /** One octet of a Python `bytes` value. */
  type Byte = b: int | 0 <= b < 256

  /** The lowercase hex digit `bytes.hex()` writes for a nibble. */
  function HexDigit(n: nat): (c: char)
    requires n < 16
    ensures DigitValue(c) == Some(n)
  {
    if n < 10 then ('0' as int + n) as char else ('a' as int + n - 10) as char
  }

  /** The value of one hex digit in either case, as `int(c, 16)` and
      `bytes.fromhex` read it; `None` for any other character. */
  function DigitValue(c: char): (r: Option<nat>)
    ensures r.Some? ==> r.value < 16
  {
    if '0' <= c <= '9' then Some(c as int - '0' as int)
    else if 'a' <= c <= 'f' then Some(c as int - 'a' as int + 10)
    else if 'A' <= c <= 'F' then Some(c as int - 'A' as int + 10)
    else None
  }

  /** `data.hex()`: two lowercase digits per byte, high nibble first. */
  function ToHex(data: seq<Byte>): (s: string)
    ensures |s| == 2 * |data|
  {
    seq(2 * |data|, k requires 0 <= k < 2 * |data| =>
      if k % 2 == 0 then HexDigit(data[k / 2] / 16) else HexDigit(data[k / 2] % 16))
  }

  /** Hex characters `2i` and `2i+1` are the high and low nibble of byte `i`. */
  lemma ToHexAt(data: seq<Byte>, i: nat)
    requires i < |data|
    ensures ToHex(data)[2 * i] == HexDigit(data[i] / 16)
    ensures ToHex(data)[2 * i + 1] == HexDigit(data[i] % 16)
  {
    assert (2 * i) / 2 == i && (2 * i + 1) / 2 == i;
  }

  /** `bytes.fromhex(s)` for a string of digit pairs (no whitespace):
      `None` is the ValueError raised for an odd length or a non-hex character. */
  function FromHex(s: string): (r: Option<seq<Byte>>)
    ensures r.Some? ==> |s| == 2 * |r.value|
  {
    if s == [] then Some([])
    else if |s| == 1 then None
    else
      var hi :- DigitValue(s[0]);
      var lo :- DigitValue(s[1]);
      var rest :- FromHex(s[2..]);
      Some([hi * 16 + lo] + rest)
  }

  /** A string of two digits per byte, high nibble first, is the hex of those bytes. */
  lemma ToHexUnique(data: seq<Byte>, s: string)
    requires |s| == 2 * |data|
    requires forall i :: 0 <= i < |data| ==> s[2 * i] == HexDigit(data[i] / 16) && s[2 * i + 1] == HexDigit(data[i] % 16)
    ensures s == ToHex(data)
  {
    var t := ToHex(data);
    forall k | 0 <= k < |s|
      ensures s[k] == t[k]
    {
      var i := k / 2;
      if k % 2 == 0 {
        assert k == 2 * i;
      } else {
        assert k == 2 * i + 1;
      }
    }
  }

  /** One byte gives two hex digits. */
  lemma ToHexSingle(b: Byte)
    ensures ToHex([b]) == [HexDigit(b / 16), HexDigit(b % 16)]
  {
    ToHexUnique([b], [HexDigit(b / 16), HexDigit(b % 16)]);
  }

  /** Dropping the first byte drops the first two hex digits. */
  lemma ToHexTail(data: seq<Byte>)
    requires data != []
    ensures ToHex(data)[2..] == ToHex(data[1..])
  {
    var s := ToHex(data)[2..];
    forall i | 0 <= i < |data| - 1
      ensures s[2 * i] == HexDigit(data[1..][i] / 16) && s[2 * i + 1] == HexDigit(data[1..][i] % 16)
    {
      ToHexAt(data, i + 1);
      assert s[2 * i] == ToHex(data)[2 * (i + 1)];
      assert s[2 * i + 1] == ToHex(data)[2 * (i + 1) + 1];
    }
    ToHexUnique(data[1..], s);
  }

  /** A string of digit pairs, in either case, each pair spelling one byte
      high nibble first, is read back by `bytes.fromhex` as those bytes. */
  lemma {:induction false} FromHexPairs(s: string, data: seq<Byte>)
    requires |s| == 2 * |data|
    requires forall i :: 0 <= i < |data| ==>
      DigitValue(s[2 * i]) == Some(data[i] / 16) && DigitValue(s[2 * i + 1]) == Some(data[i] % 16)
    ensures FromHex(s) == Some(data)
  {
    if data != [] {
      var s', data' := s[2..], data[1..];
      forall i | 0 <= i < |data'|
        ensures DigitValue(s'[2 * i]) == Some(data'[i] / 16) && DigitValue(s'[2 * i + 1]) == Some(data'[i] % 16)
      {
        assert s'[2 * i] == s[2 * (i + 1)] && s'[2 * i + 1] == s[2 * (i + 1) + 1];
        assert data'[i] == data[i + 1];
      }
      FromHexPairs(s', data');
      assert DigitValue(s[2 * 0]) == Some(data[0] / 16) && DigitValue(s[2 * 0 + 1]) == Some(data[0] % 16);
      assert data == [data[0] / 16 * 16 + data[0] % 16] + data';
    }
  }

  /** `bytes.fromhex` undoes `bytes.hex`. */
  lemma FromHexToHex(data: seq<Byte>)
    ensures FromHex(ToHex(data)) == Some(data)
  {
    forall i | 0 <= i < |data|
      ensures DigitValue(ToHex(data)[2 * i]) == Some(data[i] / 16)
      ensures DigitValue(ToHex(data)[2 * i + 1]) == Some(data[i] % 16)
    {
      ToHexAt(data, i);
    }
    FromHexPairs(ToHex(data), data);
  }

  /** Hence `bytes.hex` tells byte strings apart. */
  lemma ToHexInjective(a: seq<Byte>, b: seq<Byte>)
    requires ToHex(a) == ToHex(b)
    ensures a == b
  {
    FromHexToHex(a);
    FromHexToHex(b);
  }

  /** The hex of a concatenation is the concatenation of the hexes. */
  lemma ToHexAppend(a: seq<Byte>, b: seq<Byte>)
    ensures ToHex(a + b) == ToHex(a) + ToHex(b)
  {
    var ab, s := a + b, ToHex(a) + ToHex(b);
    forall i | 0 <= i < |ab|
      ensures s[2 * i] == HexDigit(ab[i] / 16) && s[2 * i + 1] == HexDigit(ab[i] % 16)
    {
      if i < |a| {
        ToHexAt(a, i);
        assert ab[i] == a[i];
      } else {
        var j := i - |a|;
        ToHexAt(b, j);
        assert ab[i] == b[j];
        assert s[2 * i] == ToHex(b)[2 * j] && s[2 * i + 1] == ToHex(b)[2 * j + 1];
      }
    }
    ToHexUnique(ab, s);
  }

  /** The hex slice `[2i:2j]` is the hex of bytes `i` to `j`. */
  lemma ToHexSlice(data: seq<Byte>, i: nat, j: nat)
    requires i <= j <= |data|
    ensures ToHex(data)[2 * i..2 * j] == ToHex(data[i..j])
  {
    var h := ToHex(data);
    var s := h[2 * i..2 * j];
    forall k | 0 <= k < j - i
      ensures s[2 * k] == HexDigit(data[i..j][k] / 16) && s[2 * k + 1] == HexDigit(data[i..j][k] % 16)
    {
      ToHexAt(data, i + k);
      assert s[2 * k] == h[2 * (i + k)] && s[2 * k + 1] == h[2 * (i + k) + 1];
    }
    ToHexUnique(data[i..j], s);
  }

  /** `int(s, 16)` for a string of hex digits: `None` is the ValueError raised
      for the empty string or a non-hex character. (Python also accepts a sign,
      a `0x` prefix, surrounding blanks and `_` separators; no string this
      integration parses contains them.) */
  function ParseHexInt(s: string): (r: Option<nat>)
    ensures r.Some? ==> |s| > 0
  {
    if |s| == 0 then None
    else
      var lo :- DigitValue(s[|s| - 1]);
      if |s| == 1 then Some(lo)
      else
        var hi :- ParseHexInt(s[..|s| - 1]);
        Some(hi * 16 + lo)
  }

  /** The unsigned value of bytes read most significant first. */
  function BigEndian(data: seq<Byte>): nat
  {
    if data == [] then 0 else BigEndian(data[..|data| - 1]) * 256 + data[|data| - 1]
  }

  /** Appending a digit to a numeral multiplies its value by sixteen and adds the digit. */
  lemma ParseHexAppend(h: string, c: char)
    requires ParseHexInt(h).Some? && DigitValue(c).Some?
    ensures ParseHexInt(h + [c]) == Some(ParseHexInt(h).value * 16 + DigitValue(c).value)
  {
    assert (h + [c])[..|h|] == h;
  }

  /** A byte is its high nibble times sixteen plus its low nibble. */
  lemma Nibbles(x: nat, b: Byte)
    ensures (x * 16 + b / 16) * 16 + b % 16 == x * 256 + b
  {
  }

  /** Appending the two digits of a byte to a numeral (or to nothing, read
      as 0) multiplies its value by 256 and adds the byte. */
  lemma ParseHexPair(h: string, x: nat, b: Byte)
    requires h == [] ==> x == 0
    requires h != [] ==> ParseHexInt(h) == Some(x)
    ensures ParseHexInt(h + [HexDigit(b / 16), HexDigit(b % 16)]) == Some(x * 256 + b)
  {
    var hi, lo := HexDigit(b / 16), HexDigit(b % 16);
    assert h + [hi, lo] == (h + [hi]) + [lo];
    if h == [] {
      assert h + [hi] == [hi];
      ParseHexDigit(hi);
    } else {
      ParseHexAppend(h, hi);
    }
    ParseHexAppend(h + [hi], lo);
    Nibbles(x, b);
  }

  /** Reading the hex of some bytes as one number gives their big-endian value. */
  lemma {:induction false} ParseHexOfBytes(data: seq<Byte>)
    requires data != []
    ensures ParseHexInt(ToHex(data)) == Some(BigEndian(data))
  {
    var init, b := data[..|data| - 1], data[|data| - 1];
    assert ToHex(data) == ToHex(init) + [HexDigit(b / 16), HexDigit(b % 16)] by {
      assert data == init + [b];
      ToHexAppend(init, [b]);
      ToHexSingle(b);
    }
    if init != [] {
      ParseHexOfBytes(init);
    }
    ParseHexPair(ToHex(init), BigEndian(init), b);
  }

  /** Two digits, high nibble first, read as their byte. */
  lemma PairValue(h: string, b: Byte)
    requires h == [HexDigit(b / 16), HexDigit(b % 16)]
    ensures ParseHexInt(h) == Some(b as nat)
  {
    ParseHexPair([], 0, b);
    assert [] + h == h;
  }

  /** Four digits read as two bytes, most significant first. */
  lemma QuadValue(h: string, b1: Byte, b2: Byte)
    requires h == [HexDigit(b1 / 16), HexDigit(b1 % 16), HexDigit(b2 / 16), HexDigit(b2 % 16)]
    ensures ParseHexInt(h) == Some(b1 as nat * 256 + b2 as nat)
  {
    var first := [HexDigit(b1 / 16), HexDigit(b1 % 16)];
    PairValue(first, b1);
    ParseHexPair(first, b1, b2);
    assert h == first + [HexDigit(b2 / 16), HexDigit(b2 % 16)];
  }

  /** A single hex character reads as its digit value. */
  lemma ParseHexDigit(c: char)
    ensures ParseHexInt([c]) == DigitValue(c)
  {
  }
}
