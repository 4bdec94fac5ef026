/** Bytes and their hexadecimal text: `bytes.hex()`, `int(s, 16)` and the
    big-endian reading of a byte string. */
module Hex {
  import opened Wrappers

  /** One element of a Python `bytes` value. */
  type byte = b: int | 0 <= b < 256

  /** The lower-case digit that `bytes.hex()` writes for `d`. */
  function HexDigit(d: int): char
    requires 0 <= d < 16
  {
    if d < 10 then ('0' as int + d) as char else ('a' as int + (d - 10)) as char
  }

  /** The value of a hexadecimal digit in either case, as `int(_, 16)` reads it. */
  function DigitValue(c: char): (r: Option<nat>)
    ensures r.Some? ==> r.value < 16
  {
    if '0' <= c <= '9' then Some(c as int - '0' as int)
    else if 'a' <= c <= 'f' then Some(c as int - 'a' as int + 10)
    else if 'A' <= c <= 'F' then Some(c as int - 'A' as int + 10)
    else None
  }

  predicate AllHex(s: string) {
    forall i :: 0 <= i < |s| ==> DigitValue(s[i]).Some?
  }

  /** `bytes.hex()`: two lower-case digits per byte, high nibble first. */
  function ToHex(bs: seq<byte>): (s: string)
    ensures |s| == 2 * |bs|
  {
    if bs == [] then "" else [HexDigit(bs[0] / 16), HexDigit(bs[0] % 16)] + ToHex(bs[1..])
  }

  lemma DigitRoundTrip(d: int)
    requires 0 <= d < 16
    ensures DigitValue(HexDigit(d)) == Some(d)
  {
  }

  /** Every character `bytes.hex()` writes is a digit `int(_, 16)` accepts. */
  lemma {:induction false} ToHexAllHex(bs: seq<byte>)
    ensures AllHex(ToHex(bs))
  {
    if bs != [] {
      ToHexAllHex(bs[1..]);
      DigitRoundTrip(bs[0] / 16);
      DigitRoundTrip(bs[0] % 16);
      var s := ToHex(bs);
      assert forall i :: 2 <= i < |s| ==> s[i] == ToHex(bs[1..])[i - 2];
    }
  }

  /** The text of two byte strings put together is their texts put together. */
  lemma {:induction false} ToHexAppend(a: seq<byte>, b: seq<byte>)
    ensures ToHex(a + b) == ToHex(a) + ToHex(b)
  {
    if a != [] {
      assert (a + b)[0] == a[0] && (a + b)[1..] == a[1..] + b;
      ToHexAppend(a[1..], b);
    } else {
      assert a + b == b;
    }
  }

  /** Slicing the bytes and slicing their text agree, two characters per byte. */
  lemma ToHexSlice(bs: seq<byte>, i: nat, j: nat)
    requires i <= j <= |bs|
    ensures ToHex(bs)[2 * i..2 * j] == ToHex(bs[i..j])
  {
    assert bs == bs[..i] + bs[i..j] + bs[j..];
    ToHexAppend(bs[..i] + bs[i..j], bs[j..]);
    ToHexAppend(bs[..i], bs[i..j]);
  }

  lemma ToHexSuffix(bs: seq<byte>, i: nat)
    requires i <= |bs|
    ensures ToHex(bs)[2 * i..] == ToHex(bs[i..])
  {
    assert bs == bs[..i] + bs[i..];
    ToHexAppend(bs[..i], bs[i..]);
    assert |ToHex(bs[..i])| == 2 * i;
  }

  /** The number a string of hexadecimal digits denotes, most significant first. */
  function HexValue(s: string): nat
    requires AllHex(s)
  {
    if s == [] then 0 else HexValue(s[..|s| - 1]) * 16 + DigitValue(s[|s| - 1]).value
  }

  /** `int(s, 16)` on the strings this program gives it (runs of hexadecimal
      digits): the empty string raises `ValueError`, as does any other character. */
  function ParseHexInt(s: string): (r: Option<nat>)
    ensures r.Some? <==> s != [] && AllHex(s)
  {
    if s != [] && AllHex(s) then Some(HexValue(s)) else None
  }

  /** The unsigned big-endian value of a byte string. */
  function BigEndian(bs: seq<byte>): nat {
    if bs == [] then 0 else BigEndian(bs[..|bs| - 1]) * 256 + bs[|bs| - 1]
  }

  function Pow256(n: nat): (r: nat)
    ensures r > 0
  {
    if n == 0 then 1 else 256 * Pow256(n - 1)
  }

  /** Reading the hexadecimal text of a byte string as a number gives the
      bytes' big-endian value. */
  lemma {:induction false} HexValueOfToHex(bs: seq<byte>)
    ensures AllHex(ToHex(bs)) && HexValue(ToHex(bs)) == BigEndian(bs)
  {
    ToHexAllHex(bs);
    if bs != [] {
      var n := |bs|;
      var p, b := bs[..n - 1], bs[n - 1];
      assert bs == p + [b];
      ToHexAppend(p, [b]);
      assert [b][1..] == [];
      assert ToHex([b]) == [HexDigit(b / 16), HexDigit(b % 16)];
      assert ToHex(bs) == ToHex(p) + [HexDigit(b / 16), HexDigit(b % 16)];
      ToHexAllHex(p);
      DigitRoundTrip(b / 16);
      DigitRoundTrip(b % 16);
      HexValueTwoMore(ToHex(p), HexDigit(b / 16), HexDigit(b % 16));
      HexValueOfToHex(p);
      NibbleArith(BigEndian(p), b);
    }
  }

  /** Two more digits at the end multiply by 256 and add their value. */
  lemma HexValueTwoMore(x: string, hi: char, lo: char)
    requires AllHex(x) && DigitValue(hi).Some? && DigitValue(lo).Some?
    ensures AllHex(x + [hi, lo])
    ensures HexValue(x + [hi, lo]) == HexValue(x) * 256 + DigitValue(hi).value * 16 + DigitValue(lo).value
  {
    var s := x + [hi, lo];
    assert s[..|s| - 1] == x + [hi];
    assert (x + [hi])[..|x|] == x;
  }

  lemma NibbleArith(x: int, b: byte)
    ensures (x * 16 + b / 16) * 16 + b % 16 == x * 256 + b
  {
  }

  /** `int(_, 16)` on the text `bytes.hex()` writes: the bytes' big-endian
      value, and a raise when there are no bytes. */
  lemma ParseHexIntOfToHex(bs: seq<byte>)
    ensures ParseHexInt(ToHex(bs)) == if bs == [] then None else Some(BigEndian(bs))
  {
    HexValueOfToHex(bs);
  }

  /** Bytes appended after a big-endian number shift it left by a byte each. */
  lemma {:induction false} BigEndianAppend(a: seq<byte>, b: seq<byte>)
    ensures BigEndian(a + b) == BigEndian(a) * Pow256(|b|) + BigEndian(b)
  {
    if b != [] {
      var n := |b|;
      BigEndianAppend(a, b[..n - 1]);
      assert (a + b)[..|a + b| - 1] == a + b[..n - 1];
      assert (a + b)[|a + b| - 1] == b[n - 1];
      ShiftArith(BigEndian(a), Pow256(n - 1), BigEndian(b[..n - 1]), b[n - 1]);
    } else {
      assert a + b == a;
    }
  }

  lemma ShiftArith(x: int, p: int, y: int, c: int)
    ensures (x * p + y) * 256 + c == x * (256 * p) + (y * 256 + c)
  {
    assert (x * p) * 256 == x * (256 * p);
  }

  /** Pairs of hexadecimal digits read back as bytes, as an address parser does. */
  function ParseBytes(s: string): (bs: seq<byte>)
    requires AllHex(s) && |s| % 2 == 0
    ensures |bs| == |s| / 2
  {
    if s == [] then []
    else
      assert AllHex(s[2..]);
      [DigitValue(s[0]).value * 16 + DigitValue(s[1]).value] + ParseBytes(s[2..])
  }

  /** Writing bytes as hexadecimal and parsing the text back gives the bytes. */
  lemma {:induction false} ParseBytesOfToHex(bs: seq<byte>)
    ensures AllHex(ToHex(bs)) && ParseBytes(ToHex(bs)) == bs
  {
    ToHexAllHex(bs);
    if bs != [] {
      var s := ToHex(bs);
      ToHexSuffix(bs, 1);
      ParseBytesOfToHex(bs[1..]);
      DigitRoundTrip(bs[0] / 16);
      DigitRoundTrip(bs[0] % 16);
      assert s[0] == HexDigit(bs[0] / 16) && s[1] == HexDigit(bs[0] % 16);
    }
  }
}
