/**
 * Bluetooth device addresses and their two text forms: the colon-separated
 * form printed for the operator (bdaddrToString) and the bare form used in
 * registry key names (bdaddrToRegString). Both print the six address bytes
 * most significant first, i.e. rgBytes[5] down to rgBytes[0], each as two
 * lowercase hex digits ("%02x").
 */
module BdAddr {
  import opened Wrappers

  type Byte = b: int | 0 <= b < 256

  /** BLUETOOTH_ADDRESS.rgBytes: rgBytes[0] is the least significant byte. */
  type Address = s: seq<Byte> | |s| == 6 witness [0, 0, 0, 0, 0, 0]

  predicate IsLowerHex(c: char) {
    '0' <= c <= '9' || 'a' <= c <= 'f'
  }

  function HexValue(c: char): (d: nat)
    requires IsLowerHex(c)
    ensures d < 16
  {
    if c <= '9' then c as int - '0' as int else c as int - 'a' as int + 10
  }

  function HexDigit(d: nat): (c: char)
    requires d < 16
    ensures IsLowerHex(c) && HexValue(c) == d
  {
    if d < 10 then ('0' as int + d) as char else ('a' as int + d - 10) as char
  }

  /** "%02x" of one byte. */
  function Hex2(b: Byte): (r: string)
    ensures |r| == 2 && IsLowerHex(r[0]) && IsLowerHex(r[1])
    ensures HexValue(r[0]) * 16 + HexValue(r[1]) == b
  {
    [HexDigit(b / 16), HexDigit(b % 16)]
  }

  function ParseHex2(s: string): Option<Byte> {
    if |s| == 2 && IsLowerHex(s[0]) && IsLowerHex(s[1])
    then Some(HexValue(s[0]) * 16 + HexValue(s[1]))
    else None
  }

  /** Two lowercase hex digits are exactly the "%02x" text of one byte. */
  lemma Hex2Bijective(b: Byte, s: string)
    ensures ParseHex2(Hex2(b)) == Some(b)
    ensures ParseHex2(s) == Some(b) ==> Hex2(b) == s
  {
  }

  /** The bytes in the order the formatters print them: rgBytes[5] first. */
  function MsbFirst(a: Address): (r: seq<Byte>)
    ensures |r| == 6 && forall k :: 0 <= k < 6 ==> r[k] == a[5 - k]
  {
    [a[5], a[4], a[3], a[2], a[1], a[0]]
  }

  function LsbFirst(bs: seq<Byte>): (a: Address)
    requires |bs| == 6
    ensures MsbFirst(a) == bs
  {
    [bs[5], bs[4], bs[3], bs[2], bs[1], bs[0]]
  }

  /** "%02x" of each byte, no separator. */
  function HexPairs(bs: seq<Byte>): (r: string)
    ensures |r| == 2 * |bs|
    ensures forall k :: 0 <= k < |bs| ==> r[2 * k..2 * k + 2] == Hex2(bs[k])
    ensures forall c :: c in r ==> IsLowerHex(c)
  {
    if bs == [] then []
    else
      var rest := HexPairs(bs[1..]);
      var r := Hex2(bs[0]) + rest;
      assert forall k :: 1 <= k < |bs| ==> r[2 * k..2 * k + 2] == rest[2 * (k - 1)..2 * (k - 1) + 2];
      r
  }

  function ParseHexPairs(s: string): Option<seq<Byte>>
    decreases |s|
  {
    if s == [] then Some([])
    else if |s| < 2 then None
    else match (ParseHex2(s[..2]), ParseHexPairs(s[2..]))
      case (Some(b), Some(bs)) => Some([b] + bs)
      case _ => None
  }

  lemma {:induction false} HexPairsRoundTrip(bs: seq<Byte>)
    ensures ParseHexPairs(HexPairs(bs)) == Some(bs)
  {
    if bs != [] {
      var s := HexPairs(bs);
      assert s[..2] == Hex2(bs[0]);
      assert s[2..] == HexPairs(bs[1..]);
      Hex2Bijective(bs[0], s[..2]);
      HexPairsRoundTrip(bs[1..]);
      assert [bs[0]] + bs[1..] == bs;
    }
  }

  lemma {:induction false} ParseHexPairsSound(s: string, bs: seq<Byte>)
    requires ParseHexPairs(s) == Some(bs)
    ensures HexPairs(bs) == s
    decreases |s|
  {
    if s != [] {
      var b := ParseHex2(s[..2]).value;
      ParseHexPairsSound(s[2..], bs[1..]);
      Hex2Bijective(b, s[..2]);
      assert s == s[..2] + s[2..];
    }
  }

  /** "%02x:%02x:..." : two hex digits per byte, ':' between bytes. */
  function ColonHex(bs: seq<Byte>): (r: string)
    ensures bs != [] ==> |r| == 3 * |bs| - 1
    ensures forall k :: 0 <= k < |bs| ==> r[3 * k..3 * k + 2] == Hex2(bs[k])
    ensures forall k :: 0 <= k < |bs| - 1 ==> r[3 * k + 2] == ':'
  {
    if bs == [] then []
    else if |bs| == 1 then Hex2(bs[0])
    else
      var rest := ColonHex(bs[1..]);
      var head := Hex2(bs[0]) + ":";
      var r := head + rest;
      assert |head| == 3;
      forall k | 1 <= k < |bs| ensures r[3 * k..3 * k + 2] == Hex2(bs[k]) {
        assert r[3 * k..3 * k + 2] == rest[3 * (k - 1)..3 * (k - 1) + 2];
      }
      forall k | 1 <= k < |bs| - 1 ensures r[3 * k + 2] == ':' {
        assert r[3 * k + 2] == rest[3 * (k - 1) + 2];
      }
      assert r[..2] == Hex2(bs[0]) && r[2] == ':';
      r
  }

  function ParseColonHex(s: string): Option<seq<Byte>>
    decreases |s|
  {
    if |s| == 2 then
      match ParseHex2(s) case Some(b) => Some([b]) case None => None
    else if |s| < 5 || s[2] != ':' then None
    else match (ParseHex2(s[..2]), ParseColonHex(s[3..]))
      case (Some(b), Some(bs)) => Some([b] + bs)
      case _ => None
  }

  lemma {:induction false} ColonHexRoundTrip(bs: seq<Byte>)
    requires bs != []
    ensures ParseColonHex(ColonHex(bs)) == Some(bs)
  {
    var s := ColonHex(bs);
    if |bs| == 1 {
      Hex2Bijective(bs[0], s);
      assert bs == [bs[0]];
    } else {
      assert s[..2] == Hex2(bs[0]);
      assert s[3..] == ColonHex(bs[1..]);
      Hex2Bijective(bs[0], s[..2]);
      ColonHexRoundTrip(bs[1..]);
      assert [bs[0]] + bs[1..] == bs;
    }
  }

  lemma {:induction false} ParseColonHexSound(s: string, bs: seq<Byte>)
    requires ParseColonHex(s) == Some(bs)
    ensures bs != [] && ColonHex(bs) == s
    decreases |s|
  {
    if |s| == 2 {
      Hex2Bijective(bs[0], s);
    } else {
      var b := ParseHex2(s[..2]).value;
      ParseColonHexSound(s[3..], bs[1..]);
      Hex2Bijective(b, s[..2]);
      assert s == s[..2] + ":" + s[3..];
    }
  }

  /** bdaddrToString: "xx:xx:xx:xx:xx:xx", 17 characters. */
  function BdaddrToString(a: Address): (r: string)
    ensures |r| == 17
    ensures forall k :: 0 <= k < 6 ==> r[3 * k..3 * k + 2] == Hex2(a[5 - k])
    ensures forall k :: 0 <= k < 5 ==> r[3 * k + 2] == ':'
  {
    var bs := MsbFirst(a);
    var r := ColonHex(bs);
    assert forall k :: 0 <= k < 6 ==> r[3 * k..3 * k + 2] == Hex2(a[5 - k]) by {
      forall k | 0 <= k < 6 ensures r[3 * k..3 * k + 2] == Hex2(a[5 - k]) {
        assert bs[k] == a[5 - k];
      }
    }
    r
  }

  /** bdaddrToRegString: "xxxxxxxxxxxx", 12 characters. */
  function BdaddrToRegString(a: Address): (r: string)
    ensures |r| == 12
    ensures forall k :: 0 <= k < 6 ==> r[2 * k..2 * k + 2] == Hex2(a[5 - k])
    ensures forall c :: c in r ==> IsLowerHex(c)
  {
    var bs := MsbFirst(a);
    var r := HexPairs(bs);
    assert forall k :: 0 <= k < 6 ==> r[2 * k..2 * k + 2] == Hex2(a[5 - k]) by {
      forall k | 0 <= k < 6 ensures r[2 * k..2 * k + 2] == Hex2(a[5 - k]) {
        assert bs[k] == a[5 - k];
      }
    }
    r
  }

  function ParseString(s: string): Option<Address> {
    match ParseColonHex(s)
    case Some(bs) => if |bs| == 6 then Some(LsbFirst(bs)) else None
    case None => None
  }

  function ParseRegString(s: string): Option<Address> {
    match ParseHexPairs(s)
    case Some(bs) => if |bs| == 6 then Some(LsbFirst(bs)) else None
    case None => None
  }

  /** The operator's text form loses nothing, and every parseable text is one the formatter prints. */
  lemma StringRoundTrip(a: Address, s: string)
    ensures ParseString(BdaddrToString(a)) == Some(a)
    ensures ParseString(s) == Some(a) ==> BdaddrToString(a) == s
  {
    ColonHexRoundTrip(MsbFirst(a));
    assert LsbFirst(MsbFirst(a)) == a;
    if ParseString(s) == Some(a) {
      ParseColonHexSound(s, ParseColonHex(s).value);
    }
  }

  /** The registry text form loses nothing, and every parseable text is one the formatter prints. */
  lemma RegStringRoundTrip(a: Address, s: string)
    ensures ParseRegString(BdaddrToRegString(a)) == Some(a)
    ensures ParseRegString(s) == Some(a) ==> BdaddrToRegString(a) == s
  {
    HexPairsRoundTrip(MsbFirst(a));
    assert LsbFirst(MsbFirst(a)) == a;
    if ParseRegString(s) == Some(a) {
      ParseHexPairsSound(s, ParseHexPairs(s).value);
    }
  }

  lemma FormattersInjective(a: Address, b: Address)
    ensures BdaddrToString(a) == BdaddrToString(b) ==> a == b
    ensures BdaddrToRegString(a) == BdaddrToRegString(b) ==> a == b
  {
    StringRoundTrip(a, BdaddrToString(b));
    StringRoundTrip(b, BdaddrToString(b));
    RegStringRoundTrip(a, BdaddrToRegString(b));
    RegStringRoundTrip(b, BdaddrToRegString(b));
  }
}
