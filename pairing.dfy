/**
 * The pairing tool as it runs: a Host object whose state the tool's calls
 * update in place, the Win32 calls as small methods answering from the
 * Oracle, and the tool's own functions and loops as methods. Each method is
 * proved to do exactly what its specification function in module Protocol
 * says, so the lemmas there hold of the running tool.
 */
module Pairing {
  import opened Wrappers
  import opened BdAddr
  import opened Win32
  import opened Hid
  import opened Registry
  import opened Protocol

  /**
   * The host as the tool sees it: the OS's future answers in `os`, and in
   * `state` everything the tool's calls have done to the host so far.
   */
  class Host {
    const os: Oracle
    var state: HostState

    /** A host no call has touched yet, with the given registry contents. */
    constructor (os: Oracle, registry: map<string, Dword>)
      ensures this.os == os
      ensures state == HostState(0, 0, 0, 0, 0, 0, 0, registry, 0, 0, 0, 0, [], [])
    {
      this.os := os;
      state := HostState(0, 0, 0, 0, 0, 0, 0, registry, 0, 0, 0, 0, [], []);
    }

    // ---- The Win32 calls ----

    /** BluetoothGetDeviceInfo: refreshes the record's live flags when it succeeds. */
    method BluetoothGetDeviceInfo(info: DeviceInfo) returns (result: Dword, info': DeviceInfo)
      modifies this
      ensures result == os.deviceRead(old(state).deviceReads).status
      ensures ReadResult(state, result == ERROR_SUCCESS, info') == GetDeviceInfo(os, old(state), info)
    {
      var a := os.deviceRead(state.deviceReads);
      state := state.(deviceReads := state.deviceReads + 1);
      result := a.status;
      info' := if a.status == ERROR_SUCCESS then Refreshed(info, a) else info;
    }

    /** The two BluetoothEnumerateInstalledServices calls of one HID check. */
    method BluetoothEnumerateInstalledServices() returns (a: HidAnswer)
      modifies this
      ensures a == os.installedServices(old(state).hidQueries)
      ensures state == old(state).(hidQueries := old(state).hidQueries + 1)
    {
      a := os.installedServices(state.hidQueries);
      state := state.(hidQueries := state.hidQueries + 1);
    }

    /** BluetoothSetServiceState(..., HumanInterfaceDeviceServiceClass_UUID, BLUETOOTH_SERVICE_ENABLE). */
    method BluetoothSetServiceState(info: DeviceInfo) returns (result: Dword)
      modifies this
      ensures Answer(state, result == ERROR_SUCCESS) == EnableHid(os, old(state))
    {
      result := os.setServiceState(state.enableCalls);
      state := state.(enableCalls := state.enableCalls + 1);
    }

    /** BluetoothRemoveDevice. */
    method BluetoothRemoveDevice(address: Address)
      modifies this
      ensures state == old(state).(removed := old(state).removed + [address])
    {
      state := state.(removed := state.removed + [address]);
    }

    /** The device enumeration of one scan cycle, an inquiry forced or not. */
    method GetBluetoothDeviceInfos(issueInquiry: bool) returns (list: seq<DeviceInfo>)
      modifies this
      ensures list == os.deviceList(|old(state).scans|)
      ensures state == old(state).(scans := old(state).scans + [issueInquiry])
    {
      list := os.deviceList(|state.scans|);
      state := state.(scans := state.scans + [issueInquiry]);
    }

    /** BluetoothGetRadioInfo. */
    method BluetoothGetRadioInfo() returns (radio: RadioRead)
      modifies this
      ensures radio == os.radioInfo(old(state).radioReads)
      ensures state == old(state).(radioReads := old(state).radioReads + 1)
    {
      radio := os.radioInfo(state.radioReads);
      state := state.(radioReads := state.radioReads + 1);
    }

    /** RegOpenKeyEx on HKEY_LOCAL_MACHINE: a success leaves one more key open. */
    method RegOpenKeyEx(subkey: string) returns (result: Dword)
      modifies this
      ensures result == os.regOpen(old(state).keyOpens)
      ensures state == old(state).(keyOpens := old(state).keyOpens + 1,
                                   openKeys := old(state).openKeys + if result == ERROR_SUCCESS then 1 else 0)
    {
      result := os.regOpen(state.keyOpens);
      state := state.(keyOpens := state.keyOpens + 1,
                      openKeys := state.openKeys + if result == ERROR_SUCCESS then 1 else 0);
    }

    /** RegSetValueEx of the REG_DWORD VirtuallyCabled under the open key `subkey`. */
    method RegSetValueEx(subkey: string, data: Dword) returns (result: Dword)
      modifies this
      ensures result == os.regSet(old(state).valueSets)
      ensures state == old(state).(valueSets := old(state).valueSets + 1,
                                   registry := if result == ERROR_SUCCESS then old(state).registry[subkey := data]
                                               else old(state).registry)
    {
      result := os.regSet(state.valueSets);
      state := state.(valueSets := state.valueSets + 1,
                      registry := if result == ERROR_SUCCESS then state.registry[subkey := data] else state.registry);
    }

    /** RegCloseKey. */
    method RegCloseKey()
      requires state.openKeys > 0
      modifies this
      ensures state == old(state).(openKeys := old(state).openKeys - 1)
    {
      state := state.(openKeys := state.openKeys - 1);
    }

    /** Sleep(CONN_CHECK_DELAY). */
    method SleepCheckDelay()
      modifies this
      ensures state == old(state).(checkSleeps := old(state).checkSleeps + 1)
    {
      state := state.(checkSleeps := state.checkSleeps + 1);
    }

    /** Sleep(CONN_DELAY). */
    method SleepConnDelay()
      modifies this
      ensures state == old(state).(retrySleeps := old(state).retrySleeps + 1)
    {
      state := state.(retrySleeps := state.retrySleeps + 1);
    }

    /** Sleep(SLEEP_BETWEEN_SCANS). */
    method SleepBetweenScans()
      modifies this
      ensures state == old(state).(scanSleeps := old(state).scanSleeps + 1)
    {
      state := state.(scanSleeps := state.scanSleeps + 1);
    }

    // ---- The tool ----

    /** isHidServiceEnabled. */
    method IsHidServiceEnabled(info: DeviceInfo) returns (enabled: bool)
      modifies this
      ensures Answer(state, enabled) == HidQuery(os, old(state))
    {
      var a := BluetoothEnumerateInstalledServices();
      if a.countStatus != ERROR_SUCCESS && a.countStatus != ERROR_MORE_DATA {
        return false;
      }
      if a.count == 0 {
        return false;
      }
      if a.listStatus != ERROR_SUCCESS {
        return false;
      }
      var at := Find(a.buffer, HidServiceClassUuid);
      enabled := at != |a.buffer|;
    }

    /** changeRegistry: set VirtuallyCabled to 1 under the radio's and the device's key. */
    method ChangeRegistry(info: DeviceInfo) returns (ok: bool)
      modifies this
      ensures Answer(state, ok) == Patch(os, old(state), info)
    {
      ghost var s0 := state;
      state := state.(patches := state.patches + 1);
      var radio := BluetoothGetRadioInfo();
      ghost var s1 := s0.(patches := s0.patches + 1, radioReads := s0.radioReads + 1);
      assert state == s1;
      if radio.status != ERROR_SUCCESS {
        return false;
      }
      var subkey := AssembleSubkey(radio.address, info.address);
      var result := RegOpenKeyEx(subkey);
      ghost var s2 := s1.(keyOpens := s1.keyOpens + 1);
      if result != ERROR_SUCCESS {
        assert state == s2;
        return false;
      }
      result := RegSetValueEx(subkey, 1);
      ghost var s3 := s2.(valueSets := s2.valueSets + 1);
      if result != ERROR_SUCCESS {
        RegCloseKey();
        assert state == s3;
        return false;
      }
      RegCloseKey();
      assert state == s3.(registry := s3.registry[subkey := 1]);
      ok := true;
    }

    /** One pass of isConnectionEstablished's loop up to its sleep; good when the sample is. */
    method CheckSample(info: DeviceInfo) returns (good: bool, info': DeviceInfo)
      modifies this
      ensures ReadResult(state, good, info') == Sample(os, old(state), info)
    {
      var result;
      result, info' := BluetoothGetDeviceInfo(info);
      if result != ERROR_SUCCESS {
        return false, info';
      }
      var shown := IsHidServiceEnabled(info');
      good := info'.connected && info'.remembered;
      if good {
        good := IsHidServiceEnabled(info');
      }
    }

    /**
     * isConnectionEstablished: CONN_CHECK_NUM_TRIES samples with a
     * CONN_CHECK_DELAY sleep after each good one; the record is updated in
     * place by every successful read.
     */
    method IsConnectionEstablished(info: DeviceInfo) returns (ok: bool, info': DeviceInfo)
      modifies this
      ensures ReadResult(state, ok, info') == Verify(os, old(state), info, 0)
    {
      info' := info;
      var i := 0;
      while i < CONN_CHECK_NUM_TRIES
        invariant i <= CONN_CHECK_NUM_TRIES
        invariant Verify(os, old(state), info, 0) == Verify(os, state, info', i)
      {
        ghost var before, record := state, info';
        VerifyUnfold(os, before, record, i);
        var good;
        good, info' := CheckSample(info');
        ghost var sampled := state;
        assert ReadResult(sampled, good, info') == Sample(os, before, record);
        if !good {
          return false, info';
        }
        SleepCheckDelay();
        assert Verify(os, before, record, i) == Verify(os, sampled.(checkSleeps := sampled.checkSleeps + 1), info', i + 1);
        i := i + 1;
      }
      ok := true;
    }

    /**
     * One iteration of the retry loop of main: re-read the record; when it
     * shows the device connected, patch the registry, enable HID if needed
     * (patching again after a successful enable) and verify the connection.
     * Returns the exit it takes, or None when it ends with Sleep(CONN_DELAY).
     */
    method RetryIteration(info: DeviceInfo) returns (exit: Option<Exit>, info': DeviceInfo)
      modifies this
      ensures Step(state, info', exit) == Iteration(os, old(state), info)
    {
      ghost var rd := GetDeviceInfo(os, state, info);
      var result;
      result, info' := BluetoothGetDeviceInfo(info);
      assert rd == ReadResult(state, result == ERROR_SUCCESS, info');
      if result != ERROR_SUCCESS {
        return Some(ReadFailed), info';
      }
      if info'.connected {
        ghost var p := Patch(os, state, info');
        var patched := ChangeRegistry(info');
        assert state == p.s;
        ghost var q := HidQuery(os, state);
        var hid := IsHidServiceEnabled(info');
        assert state == q.s && hid == q.yes;
        if !hid {
          ghost var en := EnableHid(os, state);
          var status := BluetoothSetServiceState(info');
          assert state == en.s;
          if status != ERROR_SUCCESS {
            return Some(EnableFailed), info';
          }
          ghost var p2 := Patch(os, state, info');
          patched := ChangeRegistry(info');
          assert state == p2.s;
        }
        var ok;
        ok, info' := IsConnectionEstablished(info');
        if ok {
          return Some(Verified), info';
        }
      }
      SleepConnDelay();
      exit := None;
    }

    /**
     * The retry loop of main for one motion controller, then the removal of
     * the device when the record as last read shows it not connected.
     */
    method PairController(info: DeviceInfo) returns (exit: Exit, iterations: nat, info': DeviceInfo)
      modifies this
      ensures Attempt(state, info', exit, iterations) == Pair(os, old(state), info)
    {
      ghost var retried := Retry(os, state, info, 0);
      info' := info;
      var i := 0;
      exit := Exhausted;
      while i < CONN_RETRIES
        invariant i <= CONN_RETRIES
        invariant retried == Retry(os, state, info', i)
      {
        ghost var before, record := state, info';
        RetryUnfold(os, before, record, i);
        var step;
        step, info' := RetryIteration(info');
        assert Step(state, info', step) == Iteration(os, before, record);
        if step.Some? {
          exit := step.value;
          assert retried == Attempt(state, info', exit, i + 1);
          break;
        }
        i := i + 1;
      }
      iterations := if exit == Exhausted then CONN_RETRIES else i + 1;
      assert retried == Attempt(state, info', exit, iterations);
      if !info'.connected {
        BluetoothRemoveDevice(info'.address);
      }
    }

    /**
     * The for loop over one enumeration's list in main: every motion
     * controller in list order gets the retry loop, the other devices nothing.
     */
    method PairControllers(deviceInfoList: seq<DeviceInfo>)
      modifies this
      ensures state == Process(os, old(state), deviceInfoList)
    {
      var i := 0;
      while i < |deviceInfoList|
        invariant i <= |deviceInfoList|
        invariant Process(os, old(state), deviceInfoList) == Process(os, state, deviceInfoList[i..])
      {
        var deviceInfo := deviceInfoList[i];
        if IsMoveMotionController(deviceInfo) {
          var _, _, _ := PairController(deviceInfo);
        }
        assert deviceInfoList[i..][1..] == deviceInfoList[i + 1..];
        i := i + 1;
      }
    }

    /**
     * The scan loop of main: until cancellation is seen at the top of a
     * cycle, enumerate (forcing an inquiry every BT_SCAN_NEW_INQUIRY cycles),
     * pair every motion controller of the list in order, count and sleep.
     * Cancellation comes at cycle stopAt at the latest.
     */
    method ScanLoop(ghost stopAt: nat)
      requires os.exitRequested(stopAt) && |state.scans| <= stopAt
      modifies this
      ensures state == Run(os, old(state), 0, stopAt)
    {
      var loop: Uint := 0;
      while !os.exitRequested(|state.scans|)
        invariant |state.scans| <= stopAt
        invariant Run(os, old(state), 0, stopAt) == Run(os, state, loop, stopAt)
        decreases stopAt - |state.scans|
      {
        ghost var top, cycle := state, loop;
        var deviceInfoList := GetBluetoothDeviceInfos(loop % BT_SCAN_NEW_INQUIRY == 0);
        ghost var listed := state;
        PairControllers(deviceInfoList);
        assert state == Process(os, listed, os.deviceList(|top.scans|));
        loop := (loop + 1) % UINT_RANGE;
        SleepBetweenScans();
        assert state == Cycle(os, top, cycle);
        assert Run(os, top, cycle, stopAt) == Run(os, state, loop, stopAt);
      }
    }
  }
}
