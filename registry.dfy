/**
 * The registry key changeRegistry writes VirtuallyCabled under: the HidBth
 * devices key, then the radio's address and then the device's address, both
 * in the 12-digit registry text form.
 */
module Registry {
  import opened Wrappers
  import opened BdAddr

  /** SYSTEM\CurrentControlSet\Services\HidBth\Parameters\Devices\ (60 WCHARs), one path component at a time. */
  const DevicesKey: string :=
    "SYSTEM\\" + "CurrentControlSet\\" + "Services\\" + "HidBth\\" + "Parameters\\" + "Devices\\"

  /** Size of the WCHAR buffer the path is assembled in, terminator included. */
  const SubkeyBufferSize: nat := 256

  function SubkeyPath(radio: Address, device: Address): (p: string)
    ensures |p| == |DevicesKey| + 24 < SubkeyBufferSize
    ensures p[..|DevicesKey|] == DevicesKey
  {
    DevicesKey + BdaddrToRegString(radio) + BdaddrToRegString(device)
  }

  /**
   * The key names the radio and the device: after the devices key come the
   * radio's 12 digits and then the device's 12, each parsing back to its
   * address.
   */
  lemma SubkeyPathParts(radio: Address, device: Address)
    ensures var p := SubkeyPath(radio, device);
      && ParseRegString(p[|DevicesKey|..|DevicesKey| + 12]) == Some(radio)
      && ParseRegString(p[|DevicesKey| + 12..]) == Some(device)
  {
    var p := SubkeyPath(radio, device);
    assert p[|DevicesKey|..|DevicesKey| + 12] == BdaddrToRegString(radio);
    assert p[|DevicesKey| + 12..] == BdaddrToRegString(device);
    RegStringRoundTrip(radio, "");
    RegStringRoundTrip(device, "");
  }

  /** Distinct (radio, device) pairs get distinct keys. */
  lemma SubkeyPathInjective(r1: Address, d1: Address, r2: Address, d2: Address)
    requires SubkeyPath(r1, d1) == SubkeyPath(r2, d2)
    ensures r1 == r2 && d1 == d2
  {
    SubkeyPathParts(r1, d1);
    SubkeyPathParts(r2, d2);
  }

  /** A wide string with no terminator inside it. */
  predicate NoNul(t: string) {
    '\0' !in t
  }

  /**
   * The buffer holds the C string t, and every WCHAR after it is zero: what
   * a wmemset to 0 followed by wcscat calls leaves.
   */
  predicate ZeroPadded(b: seq<char>, t: string) {
    NoNul(t) && |t| < |b| && b[..|t|] == t && forall k :: |t| <= k < |b| ==> b[k] == '\0'
  }

  /** wcslen: the index of the first terminator. */
  method Wcslen(buf: array<char>) returns (n: nat)
    requires exists k :: 0 <= k < buf.Length && buf[k] == '\0'
    ensures n < buf.Length && buf[n] == '\0'
    ensures forall k :: 0 <= k < n ==> buf[k] != '\0'
  {
    n := 0;
    while buf[n] != '\0'
      invariant n < buf.Length
      invariant exists k :: n <= k < buf.Length && buf[k] == '\0'
      invariant forall k :: 0 <= k < n ==> buf[k] != '\0'
      decreases buf.Length - n
    {
      n := n + 1;
    }
  }

  /** wcscat into a zero-filled buffer large enough for the result. */
  method Wcscat(buf: array<char>, s: string, ghost t: string)
    requires ZeroPadded(buf[..], t) && NoNul(s) && |t| + |s| < buf.Length
    modifies buf
    ensures ZeroPadded(buf[..], t + s)
  {
    assert buf[|t|] == '\0';
    var n := Wcslen(buf);
    ZeroPaddedText(buf[..], t, n);
    var j := 0;
    while j < |s|
      invariant 0 <= j <= |s|
      invariant ZeroPadded(buf[..], t + s[..j])
    {
      buf[n + j] := s[j];
      assert s[..j + 1] == s[..j] + [s[j]];
      j := j + 1;
    }
    assert s[..|s|] == s;
  }

  /**
   * The path as changeRegistry assembles it in its 256-WCHAR buffer: zero it,
   * append the devices key, the radio's address and the device's address,
   * and hand the NUL-terminated result on.
   */
  method AssembleSubkey(radio: Address, device: Address) returns (subkey: string)
    ensures subkey == SubkeyPath(radio, device)
  {
    var buf := new char[SubkeyBufferSize](_ => '\0');
    assert ZeroPadded(buf[..], "");
    assert NoNul(DevicesKey);
    Wcscat(buf, DevicesKey, "");
    var sRadio := BdaddrToRegString(radio);
    Wcscat(buf, sRadio, DevicesKey);
    var sDevice := BdaddrToRegString(device);
    Wcscat(buf, sDevice, DevicesKey + sRadio);
    assert buf[|DevicesKey + sRadio + sDevice|] == '\0';
    var n := Wcslen(buf);
    ZeroPaddedText(buf[..], DevicesKey + sRadio + sDevice, n);
    subkey := buf[..n];
  }

  /** A zero-padded buffer determines its string: wcslen finds its end. */
  lemma ZeroPaddedText(b: seq<char>, t: string, n: nat)
    requires ZeroPadded(b, t) && n < |b| && b[n] == '\0' && forall k :: 0 <= k < n ==> b[k] != '\0'
    ensures n == |t| && b[..n] == t
  {
    assert forall k :: 0 <= k < |t| ==> b[k] == t[k] && t[k] in t;
    assert b[|t|] == '\0';
  }
}
