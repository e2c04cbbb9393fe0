# psmove-pair-win: the pairing policy, modelled in Dafny

psmove-pair-win pairs PlayStation Move motion controllers with a Windows
Bluetooth radio. It scans for Bluetooth devices again and again. For every
device named "Motion Controller" it runs a bounded retry loop. Each retry
re-reads the device record. When the record shows the device connected, the
loop does three things:

- it sets the `VirtuallyCabled` registry value for the radio/device pair;
- it enables the HID service if needed;
- it accepts the connection only after five consecutive good samples.

A controller that the last read shows not connected is removed.

This project models that policy layer of `psmove-pair-win/main.cpp`. The
Win32 Bluetooth and registry calls become an `Oracle`: for each kind of call,
it gives the answer to the n-th call of that kind. Every sequence of answers
the OS could give is therefore one Oracle. The modules are:

- `BdAddr`: the two address formatters, with their parsers, round trips and
  injectivity.
- `Win32`: status codes, the device record, GUIDs, the Oracle.
- `Hid`: the isHidServiceEnabled decision and the `std::find` over the
  service list.
- `Registry`: the subkey path and its assembly with `wcscat` in the
  256-WCHAR buffer.
- `Protocol`: the policy as functions of a `HostState` and the Oracle. A
  `HostState` holds the call counts, the registry, the sleeps, the removed
  devices and the scans. The module also holds the lemmas about the policy.
- `Pairing`: class `Host`, the tool as it runs. Its methods carry the
  source's loops and early returns. Each is proved equal to its `Protocol`
  function.

A failed HID enable breaks out of the whole retry loop (`main.cpp:602-607`);
it does not go on to the next retry. The device is then not removed, because
its last read showed it connected.

## Model

| member | source | states |
|---|---|---|
| BdAddr.Hex2Bijective | psmove-pair-win/main.cpp:108 | `%02x` of a byte is two lowercase hex digits that parse back to the byte, and every two-digit lowercase hex text is the `%02x` of the byte it parses to |
| BdAddr.BdaddrToString | psmove-pair-win/main.cpp:106-119 | 17 characters: byte rgBytes[5-k] as two hex digits at position 3k, ':' between pairs |
| BdAddr.BdaddrToRegString | psmove-pair-win/main.cpp:121-134 | 12 lowercase hex characters: byte rgBytes[5-k] as two hex digits at position 2k, no separator |
| BdAddr.HexPairsRoundTrip | psmove-pair-win/main.cpp:123-130 | parsing the unseparated hex text of any byte sequence gives the sequence back |
| BdAddr.ParseHexPairsSound | psmove-pair-win/main.cpp:123-130 | every text that parses as unseparated hex pairs is the formatter's output for what it parses to |
| BdAddr.ColonHexRoundTrip | psmove-pair-win/main.cpp:108-114 | parsing the colon-separated hex text of any non-empty byte sequence gives the sequence back |
| BdAddr.ParseColonHexSound | psmove-pair-win/main.cpp:108-114 | every text that parses as colon-separated hex is the formatter's output for what it parses to |
| BdAddr.StringRoundTrip | psmove-pair-win/main.cpp:106-119 | bdaddrToString loses nothing: its text parses back to the address, and a text that parses to an address is that address's text |
| BdAddr.RegStringRoundTrip | psmove-pair-win/main.cpp:121-134 | the same for bdaddrToRegString |
| BdAddr.FormattersInjective | psmove-pair-win/main.cpp:106-134 | distinct addresses get distinct texts under both formatters |
| Registry.SubkeyPath | psmove-pair-win/main.cpp:438-448 | the subkey is the HidBth devices key followed by 24 hex digits, and with its terminator it fits the 256-WCHAR buffer |
| Registry.SubkeyPathParts | psmove-pair-win/main.cpp:440-448 | the 12 digits after the devices key parse to the radio's address and the last 12 parse to the device's |
| Registry.SubkeyPathInjective | psmove-pair-win/main.cpp:440-448 | distinct (radio, device) pairs get distinct subkeys |
| Registry.Wcslen | psmove-pair-win/main.cpp:440 | wcslen finds the first terminator of the buffer |
| Registry.Wcscat | psmove-pair-win/main.cpp:440-448 | wcscat into a zero-filled buffer with room leaves it holding the concatenation, zero-filled after it |
| Registry.AssembleSubkey | psmove-pair-win/main.cpp:438-448 | wmemset and the three wcscat calls leave exactly SubkeyPath(radio, device) in the buffer |
| Registry.ZeroPaddedText | psmove-pair-win/main.cpp:439-448 | a zero-padded buffer's first terminator ends exactly the string it holds |
| Hid.HidServiceEnabledCases | psmove-pair-win/main.cpp:335-367 | Hid.HidServiceEnabled is false when the count query fails with anything but ERROR_MORE_DATA, when the count is 0, or when the list query fails; otherwise true exactly when the HID UUID is one of the list's entries |
| Hid.Find | psmove-pair-win/main.cpp:366 | std::find returns the first index holding the UUID, and returns the end exactly when the UUID is absent |
| Protocol.Patch | psmove-pair-win/main.cpp:419-520 | changeRegistry succeeds exactly when the radio read, the key open and the value write all succeed. Only then is VirtuallyCabled set, to 1 whatever was there, under SubkeyPath. It leaves no key open, and it touches no device, HID, sleep, removal or scan state |
| Protocol.Verify | psmove-pair-win/main.cpp:370-416 | isConnectionEstablished changes only the read, HID-check and CONN_CHECK_DELAY counts, and keeps the device's address and name. A success leaves the record connected and remembered |
| Protocol.VerifySucceeds | psmove-pair-win/main.cpp:377-415 | isConnectionEstablished returns true exactly when all 5 samples are good (read succeeds, connected, remembered, HID enabled) |
| Protocol.VerifySuccessCounts | psmove-pair-win/main.cpp:377-412 | a success makes 5 reads, 10 HID checks and 5 CONN_CHECK_DELAY sleeps |
| Protocol.VerifyFailureCounts | psmove-pair-win/main.cpp:377-412 | a failure makes k reads, 1 <= k <= 5, and k-1 sleeps |
| Protocol.VerifyFailsAtFirstBadSample | psmove-pair-win/main.cpp:377-409 | a failure after k reads means samples 0..k-2 were good and sample k-1 was bad |
| Protocol.VerifyFailureRecord | psmove-pair-win/main.cpp:370-386 | a failure leaves the by-reference record as the last successful read left it |
| Protocol.Iteration | psmove-pair-win/main.cpp:580-631 | one retry iteration sleeps CONN_DELAY exactly when it does not break, never reports an exhausted loop, reads the device at least once and removes nothing. A break for a failed enable or a verification leaves the record connected |
| Protocol.IterationOutcome | psmove-pair-win/main.cpp:580-631 | a failed read breaks with no patch and the record unchanged. A not-connected read only sleeps. A connected read patches once, and a second time exactly when HID was off and the enable succeeded. The enable is tried only when HID was off. A failed enable breaks with no verification sample and no second patch |
| Protocol.IterationVerification | psmove-pair-win/main.cpp:593-620 | when the read succeeds, shows the device connected, and HID is on or its enable succeeds, the iteration breaks verified exactly when all 5 samples after that read and HID query are good, otherwise it goes on to the next retry, and it leaves the record as those samples leave it |
| Protocol.VerifyCursors | psmove-pair-win/main.cpp:377-412 | the verifier's verdict and record depend only on the read and HID-query positions it starts from, not on the registry, sleep or other counts |
| Protocol.Retry | psmove-pair-win/main.cpp:578-633 | at most CONN_RETRIES = 80 iterations, exactly 80 when no iteration breaks, one CONN_DELAY sleep per iteration that does not break |
| Protocol.Pair | psmove-pair-win/main.cpp:578-639 | the device is removed after the loop exactly when the last-read record shows it not connected; a device that broke on a failed enable or a verification is never removed |
| Protocol.NeverConnectedIsRemoved | psmove-pair-win/main.cpp:578-639 | a controller every read shows present but not connected is tried 80 times with 80 sleeps, is never patched, and is removed |
| Protocol.IterationVerifiesAtOnce | psmove-pair-win/main.cpp:588-620 | a connected read with HID already on and five good samples patches once and breaks verified without sleeping |
| Protocol.ConnectedOnThirdIteration | psmove-pair-win/main.cpp:578-639 | a controller that connects on retry 3 with HID on and passes 5/5 samples is verified after 3 iterations, patched once, slept 2 CONN_DELAYs and not removed |
| Protocol.Process | psmove-pair-win/main.cpp:567-643 | pairing a list's devices issues no scan and no scan sleep, and only appends to the removed devices |
| Protocol.Controllers | psmove-pair-win/main.cpp:326-332 | the devices of a list that Protocol.IsMoveMotionController accepts, that is whose name is exactly "Motion Controller", in list order |
| Protocol.ProcessSkipsOthers | psmove-pair-win/main.cpp:567-578 | processing a list is processing its motion controllers in list order: the other devices change nothing |
| Protocol.ProcessReadsEveryController | psmove-pair-win/main.cpp:574-633 | processing a list makes at least as many fresh device reads as the list has motion controllers; a device verified in an earlier cycle is not skipped |
| Protocol.ProcessSnoc | psmove-pair-win/main.cpp:567-578 | the for loop visits the list in order: processing a list with one more device at its end is processing the list, then visiting that device |
| Protocol.ProcessPairsEachController | psmove-pair-win/main.cpp:567-639 | each motion controller, in list order, gets its own retry loop and removal check (Pair) started from the state the earlier controllers left, and that loop reads the device at least once |
| Protocol.ProcessRemovesOnlyControllers | psmove-pair-win/main.cpp:574-639 | every device removed while processing a list is a motion controller of that list |
| Protocol.Cycle | psmove-pair-win/main.cpp:557-647 | one cycle adds one scan, whose inquiry flag is loop % 5 == 0, and one SLEEP_BETWEEN_SCANS, and only appends to the removed devices |
| Protocol.RunStopsAtCancellation | psmove-pair-win/main.cpp:557-647 | Protocol.Run, the scan loop, stops at the first cycle whose top sees cancellation and at no earlier one, with one scan and one sleep per cycle run |
| Protocol.RunInquirySchedule | psmove-pair-win/main.cpp:555-646 | cycle n forces an inquiry exactly when the `unsigned int` counter, n increments after its start, is a multiple of 5 |
| Protocol.WrapShift | psmove-pair-win/main.cpp:646 | incrementing the counter modulo 2^32 and then counting on is counting on from the start |
| Pairing.Host.IsHidServiceEnabled | psmove-pair-win/main.cpp:335-367 | the method's early returns and std::find give exactly Hid.HidServiceEnabled of the query's answer, and use one query |
| Pairing.Host.ChangeRegistry | psmove-pair-win/main.cpp:419-520 | the method's radio read, wcscat assembly, open, write and closes have exactly Patch's result and effect |
| Pairing.Host.CheckSample | psmove-pair-win/main.cpp:380-409 | one pass of the verifier's loop body (the read, the HID check that is only printed, and the short-circuit test) has exactly the result and effect of Protocol.Sample |
| Pairing.Host.IsConnectionEstablished | psmove-pair-win/main.cpp:370-416 | the loop updates the record in place and returns what Verify says |
| Pairing.Host.RetryIteration | psmove-pair-win/main.cpp:580-631 | the body of the retry loop does exactly what Iteration says, ignoring the patch's result |
| Pairing.Host.PairController | psmove-pair-win/main.cpp:578-639 | the retry loop with its breaks, then the removal rule, as Pair says |
| Pairing.Host.PairControllers | psmove-pair-win/main.cpp:567-643 | the for loop over the enumerated list, as Process says |
| Pairing.Host.ScanLoop | psmove-pair-win/main.cpp:555-648 | the outer loop, with its cancellation check at the top and its wrapping counter, leaves exactly the state Protocol.Run gives |

## Left out

- The Win32 Bluetooth and registry calls are not modelled. Each is a
  method of `Host` that takes the Oracle's next answer of its kind and counts
  the call.
- A failed `BluetoothGetDeviceInfo` leaves the record unchanged. A
  successful one refreshes only `fConnected`, `fRemembered` and
  `fAuthenticated`; the name and class of device are kept.
- The HID check's two `BluetoothEnumerateInstalledServices` queries are one
  Oracle answer. That answer holds the count query's status and count, and
  the list query's status and buffer. Entries the OS did not write keep the
  zero GUID that `std::vector` starts with.
- The `RegQueryValueEx` do-while loop (`main.cpp:455-470`) is left out. It
  only prints, and whether it terminates depends on the OS. The value written
  never depends on it.
- The radio and device enumeration wrappers (`main.cpp:136-209`) are
  `Host.GetBluetoothDeviceInfos`, which returns the Oracle's device list for
  the cycle. `setUpBluetoothRadio`, `chooseBluetoothRadio`,
  `printBluetoothRadioInfo` and `closeBluetoothRadios` are OS plumbing and an
  interactive prompt, and are not modelled.
- `ctrlHandler` and the asynchronous `g_exitRequested` flag are not
  modelled. Cancellation is an Oracle flag per cycle, read at the top of the
  cycle, and `ScanLoop` takes a ghost cycle by which it has come.
- Printing, `printError` and `FormatMessage` are not modelled.
- Sleep durations and `SLEEP_BETWEEN_SCANS` are not modelled; that constant
  is computed in floating point. Each `Sleep` is counted by kind instead.
- The formatters write into static buffers. That aliasing is not modelled:
  they return values. `changeRegistry` copies each result with `wcscat`
  before the next call, so nothing it uses is overwritten.
- Protocol.IsMoveMotionController compares the name as a string; the
  `wcscmp` on a NUL-terminated `WCHAR` array is not modelled.
