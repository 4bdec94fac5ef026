/** Recognising an ERC-20 `approve(address,uint256)` call and cutting the
    spender and the amount out of the hexadecimal text of its calldata.

    Under the Solidity contract ABI, the calldata is the four-byte selector
    followed by two 32-byte words: the spender, left-padded with twelve zero
    bytes (bytes [16, 36) hold the address), then the amount (bytes [36, 68)). */
module Approval {
  import opened Wrappers
  import opened Hex
  import opened Addresses

  /** The first four bytes of keccak256("approve(address,uint256)"). */
  const APPROVE_SELECTOR: seq<byte> := [0x09, 0x5e, 0xa7, 0xb3]

  /** `input.startswith(b"\x09\x5e\xa7\xb3")`. */
  predicate IsApproveCall(input: seq<byte>) {
    |input| >= 4 && input[..4] == APPROVE_SELECTOR
  }

  function Min(a: int, b: int): int {
    if a < b then a else b
  }

  /** Python's `s[i:j]` for indices 0 <= i <= j: both ends are clamped to the length. */
  function Slice(s: string, i: nat, j: nat): (r: string)
    requires i <= j
    ensures |r| == Min(j, |s|) - Min(i, |s|)
  {
    s[Min(i, |s|)..Min(j, |s|)]
  }

  /** Python's `s[i:]`. */
  function SliceFrom(s: string, i: nat): string {
    s[Min(i, |s|)..]
  }

  /** `HexBytes.hex()` as releases of hexbytes before 1.0 wrote it: "0x" and
      then `bytes.hex()`. */
  function HexBytesHex(bs: seq<byte>): string {
    "0x" + ToHex(bs)
  }

  /** The two arguments the monitor takes from an approval. */
  datatype Call = Call(spender: Address, amount: nat)

  /** The spender and the amount as the program cuts them from the text of
      the calldata: `to_checksum_address("0x" + t[34:74])` and `int(t[74:], 16)`;
      either may raise (None). */
  function DecodeText(t: string): Option<Call> {
    var spender := ChecksumAddress("0x" + Slice(t, 34, 74));
    var amount := ParseHexInt(SliceFrom(t, 74));
    if spender.Some? && amount.Some? then Some(Call(spender.value, amount.value)) else None
  }

  /** The byte at which text offset 34 lands when the text is `lead`
      followed by `bytes.hex()`. */
  function SpenderStart(lead: string): nat {
    if lead == "0x" then 16 else 17
  }

  /** Slicing behind a lead of at most `i` characters is slicing the rest. */
  lemma SliceAfterLead(lead: string, x: string, i: nat, j: nat)
    requires |lead| <= i <= j <= |lead| + |x|
    ensures Slice(lead + x, i, j) == x[i - |lead|..j - |lead|]
    ensures SliceFrom(lead + x, i) == x[i - |lead|..]
  {
  }

  lemma SpenderText(input: seq<byte>, lead: string)
    requires lead == "0x" || lead == ""
    ensures var k, t := SpenderStart(lead), lead + ToHex(input);
      ChecksumAddress("0x" + Slice(t, 34, 74)) ==
        if |input| >= k + 20 then Some(Address(input[k..k + 20])) else None
  {
    var k, t := SpenderStart(lead), lead + ToHex(input);
    var text := "0x" + Slice(t, 34, 74);
    assert |lead| + 2 * k == 34;
    if |input| >= k + 20 {
      var digits := ToHex(input[k..k + 20]);
      SliceAfterLead(lead, ToHex(input), 34, 74);
      ToHexSlice(input, k, k + 20);
      assert text == "0x" + digits;
      assert text[2..] == digits && text[..2] == "0x";
      ParseBytesOfToHex(input[k..k + 20]);
      assert ParseBytes(digits) == input[k..k + 20];
    } else {
      assert |text| < 42;
    }
  }

  lemma AmountText(input: seq<byte>, lead: string)
    requires lead == "0x" || lead == ""
    ensures var k, t := SpenderStart(lead), lead + ToHex(input);
      ParseHexInt(SliceFrom(t, 74)) ==
        if |input| >= k + 21 then Some(BigEndian(input[k + 20..])) else None
  {
    var k, t := SpenderStart(lead), lead + ToHex(input);
    if |input| >= k + 20 {
      SliceAfterLead(lead, ToHex(input), 74, |t|);
      ToHexSuffix(input, k + 20);
      HexValueOfToHex(input[k + 20..]);
    } else {
      assert SliceFrom(t, 74) == [];
    }
  }

  /** Where the fixed text offsets 34 and 74 land in the bytes: with "0x" in
      front of the digits they fall on byte 16 and byte 36; with nothing in
      front, one byte later. */
  lemma DecodeTextOf(input: seq<byte>, lead: string)
    requires lead == "0x" || lead == ""
    ensures var k := SpenderStart(lead);
      DecodeText(lead + ToHex(input)) ==
        if |input| >= k + 21 then Some(Call(Address(input[k..k + 20]), BigEndian(input[k + 20..]))) else None
  {
    SpenderText(input, lead);
    AmountText(input, lead);
  }

  /** Lines 129-131 of the handler under hexbytes before 1.0: the call
      decodes exactly when it has at least 37 bytes; the spender is bytes
      [16, 36) and the amount is the big-endian value of every byte from 36 on. */
  function Decode(input: seq<byte>): (r: Option<Call>)
    ensures r.Some? <==> |input| >= 37
    ensures r.Some? ==> r.value == Call(Address(input[16..36]), BigEndian(input[36..]))
  {
    DecodeTextOf(input, "0x");
    DecodeText(HexBytesHex(input))
  }

  /** The selector and the twelve padding bytes [4, 16) are never looked at:
      two calldatas of one length that agree from byte 16 on decode alike. */
  lemma PaddingIgnored(a: seq<byte>, b: seq<byte>)
    requires |a| == |b| >= 16 && a[16..] == b[16..]
    ensures Decode(a) == Decode(b)
  {
    if |a| >= 37 {
      assert a[16..36] == a[16..][..20] && b[16..36] == b[16..][..20];
      assert a[36..] == a[16..][20..] && b[36..] == b[16..][20..];
    }
  }

  /** The amount is not the ABI's 32-byte word when bytes follow it: every
      trailing byte shifts the word left by eight bits and is added in. */
  lemma TrailingBytesInAmount(input: seq<byte>)
    requires |input| >= 68
    ensures Decode(input).Some?
    ensures Decode(input).value.amount == BigEndian(input[36..68]) * Pow256(|input| - 68) + BigEndian(input[68..])
  {
    var word := input[36..];
    assert Decode(input).value.amount == BigEndian(word);
    assert word == word[..32] + word[32..];
    BigEndianAppend(word[..32], word[32..]);
    assert word[..32] == input[36..68] && word[32..] == input[68..];
  }

  /** The same lines under hexbytes 1.0 and later, whose `hex()` leaves out
      the "0x": the offsets then fall one byte late. */
  function DecodeUnprefixed(input: seq<byte>): (r: Option<Call>)
    ensures r.Some? <==> |input| >= 38
    ensures r.Some? ==> r.value == Call(Address(input[17..37]), BigEndian(input[37..]))
  {
    DecodeTextOf(input, "");
    assert "" + ToHex(input) == ToHex(input);
    DecodeText(ToHex(input))
  }

  /** A standard 68-byte approval whose spender starts with byte 0x01 and
      whose amount is 5. */
  const MISREAD_EXAMPLE: seq<byte> :=
    APPROVE_SELECTOR + seq(12, _ => 0) + [1] + seq(19, _ => 0) + seq(31, _ => 0) + [5]

  /** The 37-byte calls that decode with the "0x" raise without it. */
  lemma ShortCallOnlyPrefixed(input: seq<byte>)
    requires |input| == 37
    ensures Decode(input).Some? && DecodeUnprefixed(input).None?
  {
  }

  /** Without the "0x" the spender's first byte is dropped and the amount's
      first byte taken in: the example's spender reads as all zeros. */
  lemma UnprefixedMisreads()
    ensures IsApproveCall(MISREAD_EXAMPLE)
    ensures Decode(MISREAD_EXAMPLE) == Some(Call(Address([1] + seq(19, _ => 0)), 5))
    ensures DecodeUnprefixed(MISREAD_EXAMPLE).Some?
    ensures DecodeUnprefixed(MISREAD_EXAMPLE).value.spender == ZERO_ADDRESS
  {
    var x := MISREAD_EXAMPLE;
    assert |x| == 68;
    assert x[..4] == APPROVE_SELECTOR;
    assert x[16..36] == [1] + seq(19, _ => 0);
    assert x[17..37] == seq(20, _ => 0);
    assert x[36..] == seq(31, _ => 0) + [5];
    ZeroPrefixValue(31, 5);
  }

  lemma {:induction false} ZeroPrefixValue(n: nat, b: byte)
    ensures BigEndian(seq(n, _ => 0) + [b]) == b
  {
    var s := seq(n, _ => 0) + [b];
    assert s[..|s| - 1] == seq(n, _ => 0);
    ZerosValue(n);
  }

  lemma {:induction false} ZerosValue(n: nat)
    ensures BigEndian(seq(n, _ => 0)) == 0
  {
    if n > 0 {
      assert seq(n, _ => 0)[..n - 1] == seq(n - 1, _ => 0);
      ZerosValue(n - 1);
    }
  }
}
