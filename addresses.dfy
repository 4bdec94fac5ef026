/** Account addresses, their normalisation and the fixed addresses the
    monitor knows: WETH on Base, the zero address and the router table. */
module Addresses {
  import opened Wrappers
  import opened Hex

  /** A 20-byte account address. The mixed-case EIP-55 text that
      `to_checksum_address` produces is a one-to-one function of these bytes,
      so comparing that text as it is (the cache key, the zero-address tests)
      is comparing bytes, and comparing it after `.lower()` (the WETH and
      router tests) is comparing the lower-case text `AddressText`. The model
      keeps the bytes. */
  datatype Address = Address(bytes: seq<byte>)

  /** `checksum_text.lower()`: "0x" and forty lower-case digits. */
  function AddressText(a: Address): string {
    "0x" + ToHex(a.bytes)
  }

  /** `to_checksum_address(s)` on the texts this program passes it: "0x"
      followed by forty hexadecimal digits in either case gives the address of
      those bytes, whose lower-case text is the input's; anything else raises. */
  function ChecksumAddress(s: string): (r: Option<Address>)
    ensures r.Some? <==> |s| == 42 && s[..2] == "0x" && AllHex(s[2..])
    ensures r.Some? ==> |r.value.bytes| == 20 && AddressText(r.value) == ToLower(s)
  {
    if |s| == 42 && s[..2] == "0x" && AllHex(s[2..]) then
      ToHexOfParseBytes(s[2..]);
      assert s == "0x" + s[2..];
      LowerAppend("0x", s[2..]);
      Some(Address(ParseBytes(s[2..])))
    else None
  }

  /** Normalising the lower-case text of an address gives the address back. */
  lemma ChecksumOfText(a: Address)
    requires |a.bytes| == 20
    ensures ChecksumAddress(AddressText(a)) == Some(a)
  {
    var s := AddressText(a);
    assert s[2..] == ToHex(a.bytes);
    assert s[..2] == "0x";
    ParseBytesOfToHex(a.bytes);
  }

  /** Two texts normalise to the same address exactly when they are equal
      ignoring case. */
  lemma ChecksumIgnoresCase(s: string, s': string)
    requires ChecksumAddress(s).Some? && ChecksumAddress(s').Some?
    ensures ChecksumAddress(s) == ChecksumAddress(s') <==> ToLower(s) == ToLower(s')
  {
    var a, a' := ChecksumAddress(s).value, ChecksumAddress(s').value;
    if ToLower(s) == ToLower(s') {
      ChecksumOfText(a);
      ChecksumOfText(a');
    }
  }

  function LowerChar(c: char): char {
    if 'A' <= c <= 'Z' then (c as int - 'A' as int + 'a' as int) as char else c
  }

  /** `str.lower()` on ASCII text. */
  function ToLower(s: string): (r: string)
    ensures |r| == |s|
    ensures forall i :: 0 <= i < |s| ==> r[i] == LowerChar(s[i])
  {
    seq(|s|, i requires 0 <= i < |s| => LowerChar(s[i]))
  }

  lemma LowerAppend(x: string, y: string)
    ensures ToLower(x + y) == ToLower(x) + ToLower(y)
  {
    assert forall i :: |x| <= i < |x + y| ==> (x + y)[i] == y[i - |x|];
  }

  /** The lower-case digit `bytes.hex()` writes for the value of a digit. */
  lemma DigitLower(c: char)
    requires DigitValue(c).Some?
    ensures HexDigit(DigitValue(c).value) == LowerChar(c)
  {
  }

  /** Parsing hexadecimal text and writing the bytes back gives the text in
      lower case. */
  lemma {:induction false} ToHexOfParseBytes(x: string)
    requires AllHex(x) && |x| % 2 == 0
    ensures ToHex(ParseBytes(x)) == ToLower(x)
  {
    if x != [] {
      assert AllHex(x[2..]);
      ToHexOfParseBytes(x[2..]);
      var hi, lo := DigitValue(x[0]).value, DigitValue(x[1]).value;
      var bs := ParseBytes(x);
      assert bs[0] == hi * 16 + lo && bs[1..] == ParseBytes(x[2..]);
      assert bs[0] / 16 == hi && bs[0] % 16 == lo;
      DigitLower(x[0]);
      DigitLower(x[1]);
      assert x == x[..2] + x[2..];
      LowerAppend(x[..2], x[2..]);
    }
  }

  /** The text the monitor compares is already lower case. */
  lemma AddressTextIsLower(a: Address)
    ensures ToLower(AddressText(a)) == AddressText(a)
  {
    ParseBytesOfToHex(a.bytes);
    ToHexOfParseBytes(ToHex(a.bytes));
    LowerAppend("0x", ToHex(a.bytes));
  }

  /** The address `getPool` and `getPair` return when there is no pool. */
  const ZERO_ADDRESS: Address := Address([0, 0, 0, 0, 0, 0, 0, 0, 0, 0, 0, 0, 0, 0, 0, 0, 0, 0, 0, 0])

  /** Wrapped Ether on Base, as the program spells it. */
  const WETH_TEXT: string := "0x4200000000000000000000000000000000000006"

  /** `token.lower() == WETH.lower()`. */
  predicate IsWeth(token: Address) {
    AddressText(token) == ToLower(WETH_TEXT)
  }

  /** The router table in the dictionary's insertion order: label, address. */
  const ROUTERS: seq<(string, string)> := [
    ("Router 1", "0x3fC91A3afd70395Cd496C647d5a6CC9D4B2b7FAD"),
    ("Router 2", "0x4752ba5DBc23f44D87826276BF6Fd6b1C372aD24"),
    ("Router 3", "0x2626664c2603336E57B271c5C0b26F421741e481")
  ]

  predicate RouterMatches(entry: (string, string), spender: Address) {
    ToLower(entry.1) == AddressText(spender)
  }

  /** The label of the first router whose address equals the spender when
      both are lower-cased, or None when no router matches. */
  function RouterLabel(routers: seq<(string, string)>, spender: Address): (r: Option<string>)
    ensures r.None? <==> forall i :: 0 <= i < |routers| ==> !RouterMatches(routers[i], spender)
    ensures r.Some? ==>
      exists i :: 0 <= i < |routers| && routers[i].0 == r.value && RouterMatches(routers[i], spender) &&
        forall j :: 0 <= j < i ==> !RouterMatches(routers[j], spender)
  {
    if routers == [] then None
    else if RouterMatches(routers[0], spender) then
      Some(routers[0].0)
    else
      var r := RouterLabel(routers[1..], spender);
      assert forall i :: 0 < i < |routers| ==> routers[i] == routers[1..][i - 1];
      if r.Some? then
        var i :| 0 <= i < |routers[1..]| && routers[1..][i].0 == r.value && RouterMatches(routers[1..][i], spender) &&
          forall j :: 0 <= j < i ==> !RouterMatches(routers[1..][j], spender);
        assert routers[i + 1].0 == r.value && RouterMatches(routers[i + 1], spender);
        r
      else r
  }

  /** What the alert prints after the spender: the label when there is one,
      else "Unknown". */
  function DisplayLabel(found: Option<string>): (s: string)
    ensures s != ""
    ensures found.Some? && found.value != "" ==> s == found.value
    ensures found.None? || found.value == "" ==> s == "Unknown"
  {
    if found.Some? && found.value != "" then found.value else "Unknown"
  }

  /** With the program's router table an alert says "Unknown" exactly when
      the spender is none of the routers. */
  lemma UnknownExactlyWhenNoRouter(spender: Address)
    ensures DisplayLabel(RouterLabel(ROUTERS, spender)) == "Unknown" <==>
      forall i :: 0 <= i < |ROUTERS| ==> !RouterMatches(ROUTERS[i], spender)
  {
    var found := RouterLabel(ROUTERS, spender);
    if found.Some? {
      var i :| 0 <= i < |ROUTERS| && ROUTERS[i].0 == found.value && RouterMatches(ROUTERS[i], spender) &&
        forall j :: 0 <= j < i ==> !RouterMatches(ROUTERS[j], spender);
      assert found.value != "" && found.value != "Unknown";
    }
  }
}
