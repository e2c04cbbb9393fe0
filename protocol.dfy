/**
 * The pairing policy of the tool's main loop, as functions of the host state
 * before a step and the Oracle's answers. Each function here is the
 * specification one method of Pairing.Host is proved against; the lemmas at
 * the end state what the policy guarantees.
 */
module Protocol {
  import opened Wrappers
  import opened BdAddr
  import opened Win32
  import opened Hid
  import opened Registry

  /** CONN_RETRIES: iterations of the per-device retry loop. */
  const CONN_RETRIES: nat := 80
  /** CONN_CHECK_NUM_TRIES: consecutive good samples the verifier needs. */
  const CONN_CHECK_NUM_TRIES: nat := 5
  /** BT_SCAN_NEW_INQUIRY: every this many cycles the scan forces an inquiry. */
  const BT_SCAN_NEW_INQUIRY: nat := 5
  /** The range of the `unsigned int` cycle counter `loop`. */
  const UINT_RANGE: nat := 0x1_0000_0000

  type Uint = x: int | 0 <= x < 0x1_0000_0000

  const MotionControllerName: string := "Motion Controller"

  /**
   * Everything the tool's calls have done so far: how many calls of each
   * kind the OS has answered (the Oracle's cursors), the registry values it
   * has written, the sleeps, the devices it removed and the scans it issued.
   */
  datatype HostState = HostState(
    deviceReads: nat,             // BluetoothGetDeviceInfo calls
    hidQueries: nat,              // isHidServiceEnabled calls
    enableCalls: nat,             // BluetoothSetServiceState calls
    radioReads: nat,              // BluetoothGetRadioInfo calls
    keyOpens: nat,                // RegOpenKeyEx calls
    valueSets: nat,               // RegSetValueEx calls
    openKeys: nat,                // registry keys opened and not yet closed
    registry: map<string, Dword>, // VirtuallyCabled under each device key
    patches: nat,                 // changeRegistry calls
    checkSleeps: nat,             // Sleep(CONN_CHECK_DELAY)
    retrySleeps: nat,             // Sleep(CONN_DELAY)
    scanSleeps: nat,              // Sleep(SLEEP_BETWEEN_SCANS)
    removed: seq<Address>,        // BluetoothRemoveDevice calls, in order
    scans: seq<bool>)             // device enumerations: the fIssueInquiry of each

  /** isMoveMotionController: an exact match of the device name. */
  predicate IsMoveMotionController(d: DeviceInfo) {
    d.name == MotionControllerName
  }

  /** What a read of the device record returns: the new host state, whether it succeeded, the record. */
  datatype ReadResult = ReadResult(s: HostState, ok: bool, info: DeviceInfo)
  datatype Answer = Answer(s: HostState, yes: bool)

  /** The record as a successful BluetoothGetDeviceInfo leaves it. */
  function Refreshed(info: DeviceInfo, a: DeviceRead): DeviceInfo {
    info.(connected := a.connected, remembered := a.remembered, authenticated := a.authenticated)
  }

  /** BluetoothGetDeviceInfo into the record; a failed read leaves the record as it was. */
  function GetDeviceInfo(os: Oracle, s: HostState, info: DeviceInfo): ReadResult {
    var a := os.deviceRead(s.deviceReads);
    var s' := s.(deviceReads := s.deviceReads + 1);
    if a.status == ERROR_SUCCESS
    then ReadResult(s', true, Refreshed(info, a))
    else ReadResult(s', false, info)
  }

  /** One isHidServiceEnabled call. */
  function HidQuery(os: Oracle, s: HostState): Answer {
    Answer(s.(hidQueries := s.hidQueries + 1), HidServiceEnabled(os.installedServices(s.hidQueries)))
  }

  /** BluetoothSetServiceState(..., BLUETOOTH_SERVICE_ENABLE): yes when it succeeds. */
  function EnableHid(os: Oracle, s: HostState): Answer {
    Answer(s.(enableCalls := s.enableCalls + 1), os.setServiceState(s.enableCalls) == ERROR_SUCCESS)
  }

  /**
   * changeRegistry. Fails when the radio info cannot be read, the key cannot
   * be opened or the value cannot be written; writes 1 whatever was there;
   * every key it opens it closes again.
   */
  function Patch(os: Oracle, s: HostState, info: DeviceInfo): (r: Answer)
    ensures r.s.patches == s.patches + 1
    ensures r.s.openKeys == s.openKeys
    ensures r.yes <==> os.radioInfo(s.radioReads).status == ERROR_SUCCESS
                       && os.regOpen(s.keyOpens) == ERROR_SUCCESS
                       && os.regSet(s.valueSets) == ERROR_SUCCESS
    ensures r.s.registry == if r.yes
                            then s.registry[SubkeyPath(os.radioInfo(s.radioReads).address, info.address) := 1]
                            else s.registry
    ensures r.s.deviceReads == s.deviceReads && r.s.hidQueries == s.hidQueries
    ensures r.s.enableCalls == s.enableCalls && r.s.removed == s.removed
    ensures r.s.scans == s.scans && r.s.checkSleeps == s.checkSleeps
    ensures r.s.retrySleeps == s.retrySleeps && r.s.scanSleeps == s.scanSleeps
  {
    var radio := os.radioInfo(s.radioReads);
    var s1 := s.(patches := s.patches + 1, radioReads := s.radioReads + 1);
    if radio.status != ERROR_SUCCESS then Answer(s1, false)
    else
      var path := SubkeyPath(radio.address, info.address);
      var s2 := s1.(keyOpens := s1.keyOpens + 1);
      if os.regOpen(s1.keyOpens) != ERROR_SUCCESS then Answer(s2, false)
      else
        var s3 := s2.(valueSets := s2.valueSets + 1);
        if os.regSet(s2.valueSets) != ERROR_SUCCESS then Answer(s3, false)
        else Answer(s3.(registry := s3.registry[path := 1]), true)
  }

  /**
   * Sample j of a verification that starts in state s is good: the j-th read
   * succeeds and shows the device connected and remembered, and the HID
   * check that decides (the second of the sample's two) says enabled.
   */
  predicate GoodSample(os: Oracle, s: HostState, j: nat) {
    var a := os.deviceRead(s.deviceReads + j);
    a.status == ERROR_SUCCESS && a.connected && a.remembered
    && HidServiceEnabled(os.installedServices(s.hidQueries + 2 * j + 1))
  }

  /** Every one of the CONN_CHECK_NUM_TRIES samples from state s on is good. */
  predicate AllSamplesGood(os: Oracle, s: HostState) {
    forall j :: 0 <= j < CONN_CHECK_NUM_TRIES ==> GoodSample(os, s, j)
  }

  /** The state after a good sample: one read, two HID checks, one CONN_CHECK_DELAY sleep. */
  function AfterGoodSample(s: HostState): HostState {
    s.(deviceReads := s.deviceReads + 1, hidQueries := s.hidQueries + 2, checkSleeps := s.checkSleeps + 1)
  }

  /**
   * One pass of isConnectionEstablished's loop up to its sleep: read the
   * record, run the HID check once for the progress output, then test
   * connected && remembered && a second HID check, which short-circuits.
   * ok means the sample is good. The record is passed by reference, so the
   * result carries it as a successful read left it.
   */
  function Sample(os: Oracle, s: HostState, info: DeviceInfo): ReadResult {
    var a := os.deviceRead(s.deviceReads);
    if a.status != ERROR_SUCCESS then ReadResult(s.(deviceReads := s.deviceReads + 1), false, info)
    else if !(a.connected && a.remembered) then
      ReadResult(s.(deviceReads := s.deviceReads + 1, hidQueries := s.hidQueries + 1), false, Refreshed(info, a))
    else
      ReadResult(s.(deviceReads := s.deviceReads + 1, hidQueries := s.hidQueries + 2),
           HidServiceEnabled(os.installedServices(s.hidQueries + 1)), Refreshed(info, a))
  }

  /**
   * isConnectionEstablished from sample i on: each good sample is followed
   * by a CONN_CHECK_DELAY sleep, the first bad one ends it with false.
   */
  function Verify(os: Oracle, s: HostState, info: DeviceInfo, i: nat): (r: ReadResult)
    requires i <= CONN_CHECK_NUM_TRIES
    ensures r.s == s.(deviceReads := r.s.deviceReads, hidQueries := r.s.hidQueries, checkSleeps := r.s.checkSleeps)
    ensures r.s.deviceReads >= s.deviceReads && r.s.checkSleeps >= s.checkSleeps
    ensures r.info.address == info.address && r.info.name == info.name
    ensures i == CONN_CHECK_NUM_TRIES ==> r.info == info
    ensures r.ok && i < CONN_CHECK_NUM_TRIES ==> r.info.connected && r.info.remembered
    decreases CONN_CHECK_NUM_TRIES - i
  {
    if i == CONN_CHECK_NUM_TRIES then ReadResult(s, true, info)
    else
      var a := os.deviceRead(s.deviceReads);
      if a.status != ERROR_SUCCESS then ReadResult(s.(deviceReads := s.deviceReads + 1), false, info)
      else if !(a.connected && a.remembered) then
        ReadResult(s.(deviceReads := s.deviceReads + 1, hidQueries := s.hidQueries + 1), false, Refreshed(info, a))
      else if !HidServiceEnabled(os.installedServices(s.hidQueries + 1)) then
        ReadResult(s.(deviceReads := s.deviceReads + 1, hidQueries := s.hidQueries + 2), false, Refreshed(info, a))
      else Verify(os, AfterGoodSample(s), Refreshed(info, a), i + 1)
  }

  /** Verify is a Sample and, after a good one and its sleep, the rest of the samples. */
  lemma VerifyUnfold(os: Oracle, s: HostState, info: DeviceInfo, i: nat)
    requires i < CONN_CHECK_NUM_TRIES
    ensures var r := Sample(os, s, info);
      Verify(os, s, info, i) == if !r.ok then r else Verify(os, r.s.(checkSleeps := r.s.checkSleeps + 1), r.info, i + 1)
  {
  }

  /** How the per-device retry loop ended. */
  datatype Exit = ReadFailed | EnableFailed | Verified | Exhausted

  datatype Step = Step(s: HostState, info: DeviceInfo, exit: Option<Exit>)

  /** The verification at the end of a connected iteration; a failure sleeps CONN_DELAY. */
  function Verifying(os: Oracle, s: HostState, info: DeviceInfo): Step {
    var v := Verify(os, s, info, 0);
    if v.ok then Step(v.s, v.info, Some(Verified))
    else Step(v.s.(retrySleeps := v.s.retrySleeps + 1), v.info, None)
  }

  /** One iteration of the retry loop; exit None means it ended with the CONN_DELAY sleep. */
  function Iteration(os: Oracle, s: HostState, info: DeviceInfo): (r: Step)
    ensures r.exit == Some(EnableFailed) || r.exit == Some(Verified) ==> r.info.connected
    ensures r.s.retrySleeps == s.retrySleeps + (if r.exit.None? then 1 else 0)
    ensures r.info.address == info.address && r.info.name == info.name
    ensures r.s.removed == s.removed && r.s.scans == s.scans && r.s.scanSleeps == s.scanSleeps
    ensures r.exit != Some(Exhausted)
    ensures r.s.deviceReads >= s.deviceReads + 1
  {
    var rd := GetDeviceInfo(os, s, info);
    if !rd.ok then Step(rd.s, rd.info, Some(ReadFailed))
    else if !rd.info.connected then Step(rd.s.(retrySleeps := rd.s.retrySleeps + 1), rd.info, None)
    else
      var p := Patch(os, rd.s, rd.info);
      var q := HidQuery(os, p.s);
      if q.yes then Verifying(os, q.s, rd.info)
      else
        var en := EnableHid(os, q.s);
        if !en.yes then Step(en.s, rd.info, Some(EnableFailed))
        else
          var p2 := Patch(os, en.s, rd.info);
          Verifying(os, p2.s, rd.info)
  }

  /**
   * What one iteration does after its read: a failed read ends the loop with
   * the record unchanged; a not-connected read only sleeps; a connected read
   * gets the registry patch once, and a second time only when HID was
   * disabled and enabling it succeeded; a failed enable ends the loop with
   * no verification and no second patch.
   */
  lemma IterationOutcome(os: Oracle, s: HostState, info: DeviceInfo)
    ensures var r := Iteration(os, s, info); var a := os.deviceRead(s.deviceReads);
      && (a.status != ERROR_SUCCESS ==> r.exit == Some(ReadFailed) && r.info == info && r.s.patches == s.patches)
      && (a.status == ERROR_SUCCESS && !a.connected ==>
            r.exit.None? && !r.info.connected && r.s.patches == s.patches && r.s.registry == s.registry)
      && (a.status == ERROR_SUCCESS && a.connected ==>
            var hid := HidServiceEnabled(os.installedServices(s.hidQueries));
            var enabled := os.setServiceState(s.enableCalls) == ERROR_SUCCESS;
            && r.s.patches == s.patches + (if !hid && enabled then 2 else 1)
            && r.s.enableCalls == s.enableCalls + (if hid then 0 else 1)
            && (r.exit == Some(EnableFailed) <==> !hid && !enabled)
            && (r.exit == Some(EnableFailed) ==> r.s.deviceReads == s.deviceReads + 1 && r.s.checkSleeps == s.checkSleeps))
  {
  }

  datatype Attempt = Attempt(s: HostState, info: DeviceInfo, exit: Exit, iterations: nat)

  /** The retry loop from iteration i on: at most CONN_RETRIES iterations, each but a breaking one sleeps once. */
  function Retry(os: Oracle, s: HostState, info: DeviceInfo, i: nat): (r: Attempt)
    requires i <= CONN_RETRIES
    ensures r.iterations <= CONN_RETRIES && (i < CONN_RETRIES ==> i < r.iterations)
    ensures r.exit == Exhausted ==> r.iterations == CONN_RETRIES
    ensures r.s.retrySleeps == s.retrySleeps + (r.iterations - i) - (if r.exit == Exhausted then 0 else 1)
    ensures r.exit == EnableFailed || r.exit == Verified ==> r.info.connected
    ensures r.info.address == info.address && r.info.name == info.name
    ensures r.s.removed == s.removed && r.s.scans == s.scans && r.s.scanSleeps == s.scanSleeps
    ensures r.s.deviceReads >= s.deviceReads + (r.iterations - i)
    decreases CONN_RETRIES - i
  {
    if i == CONN_RETRIES then Attempt(s, info, Exhausted, i)
    else
      var st := Iteration(os, s, info);
      match st.exit
      case Some(e) => Attempt(st.s, st.info, e, i + 1)
      case None => Retry(os, st.s, st.info, i + 1)
  }

  /** Retry after one iteration: an exit ends the loop, a sleep goes on to the next iteration. */
  lemma RetryUnfold(os: Oracle, s: HostState, info: DeviceInfo, i: nat)
    requires i < CONN_RETRIES
    ensures var st := Iteration(os, s, info);
      Retry(os, s, info, i) == if st.exit.Some? then Attempt(st.s, st.info, st.exit.value, i + 1)
                               else Retry(os, st.s, st.info, i + 1)
  {
  }

  /**
   * The protocol for one motion controller: the retry loop, then removal of
   * the device exactly when the record as last read shows it not connected.
   */
  function Pair(os: Oracle, s: HostState, info: DeviceInfo): (r: Attempt)
    ensures 1 <= r.iterations <= CONN_RETRIES
    ensures r.s.removed == s.removed + (if r.info.connected then [] else [info.address])
    ensures r.exit == EnableFailed || r.exit == Verified ==> r.s.removed == s.removed
    ensures r.s.scans == s.scans && r.s.scanSleeps == s.scanSleeps
    ensures r.s.deviceReads >= s.deviceReads + r.iterations
  {
    var a := Retry(os, s, info, 0);
    if a.info.connected then a
    else a.(s := a.s.(removed := a.s.removed + [a.info.address]))
  }

  /** One device of an enumeration: a motion controller gets the retry loop, any other device nothing. */
  function Visit(os: Oracle, s: HostState, d: DeviceInfo): HostState {
    if IsMoveMotionController(d) then Pair(os, s, d).s else s
  }

  /** The devices of one enumeration, in list order; only motion controllers are paired. */
  function Process(os: Oracle, s: HostState, list: seq<DeviceInfo>): (r: HostState)
    ensures r.scans == s.scans && r.scanSleeps == s.scanSleeps
    ensures |s.removed| <= |r.removed| && r.removed[..|s.removed|] == s.removed
    decreases |list|
  {
    if list == [] then s
    else
      var s1 := Visit(os, s, list[0]);
      var r := Process(os, s1, list[1..]);
      assert r.removed[..|s.removed|] == r.removed[..|s1.removed|][..|s.removed|];
      r
  }

  /**
   * One cycle of the scan loop after its cancellation check: enumerate
   * (forcing an inquiry when loop is a multiple of BT_SCAN_NEW_INQUIRY),
   * pair the motion controllers of the list, then SLEEP_BETWEEN_SCANS.
   */
  function Cycle(os: Oracle, s: HostState, loop: Uint): (r: HostState)
    ensures r.scans == s.scans + [loop % BT_SCAN_NEW_INQUIRY == 0]
    ensures r.scanSleeps == s.scanSleeps + 1
    ensures |s.removed| <= |r.removed| && r.removed[..|s.removed|] == s.removed
  {
    var s1 := s.(scans := s.scans + [loop % BT_SCAN_NEW_INQUIRY == 0]);
    var s2 := Process(os, s1, os.deviceList(|s.scans|));
    s2.(scanSleeps := s2.scanSleeps + 1)
  }

  /**
   * The scan loop from the top of a cycle whose counter is `loop`: stop when
   * cancellation is seen there, else run the cycle and go on with the
   * counter incremented as an unsigned int.
   */
  function Run(os: Oracle, s: HostState, loop: Uint, stopAt: nat): (r: HostState)
    requires os.exitRequested(stopAt) && |s.scans| <= stopAt
    decreases stopAt - |s.scans|
  {
    if os.exitRequested(|s.scans|) then s
    else Run(os, Cycle(os, s, loop), (loop + 1) % UINT_RANGE, stopAt)
  }

  /** The motion controllers of a device list, in list order. */
  function Controllers(list: seq<DeviceInfo>): (r: seq<DeviceInfo>)
    ensures forall d :: d in r <==> d in list && IsMoveMotionController(d)
  {
    if list == [] then []
    else (if IsMoveMotionController(list[0]) then [list[0]] else []) + Controllers(list[1..])
  }

  lemma VerifyUnfoldGood(os: Oracle, s: HostState, info: DeviceInfo, i: nat)
    requires i < CONN_CHECK_NUM_TRIES && GoodSample(os, s, 0)
    ensures Verify(os, s, info, i) == Verify(os, AfterGoodSample(s), Refreshed(info, os.deviceRead(s.deviceReads)), i + 1)
  {
  }

  lemma VerifyUnfoldBad(os: Oracle, s: HostState, info: DeviceInfo, i: nat)
    requires i < CONN_CHECK_NUM_TRIES && !GoodSample(os, s, 0)
    ensures var r := Verify(os, s, info, i); var a := os.deviceRead(s.deviceReads);
      && !r.ok && r.s.deviceReads == s.deviceReads + 1 && r.s.checkSleeps == s.checkSleeps
      && r.info.connected == if a.status == ERROR_SUCCESS then a.connected else info.connected
  {
  }

  lemma GoodSampleShift(os: Oracle, s: HostState, j: nat)
    ensures GoodSample(os, AfterGoodSample(s), j) == GoodSample(os, s, j + 1)
  {
  }

  /** A good sample followed by k good ones is k + 1 good samples. */
  lemma GoodPrefixShift(os: Oracle, s: HostState, k: nat)
    requires GoodSample(os, s, 0)
    requires forall j :: 0 <= j < k ==> GoodSample(os, AfterGoodSample(s), j)
    ensures forall j :: 0 <= j < k + 1 ==> GoodSample(os, s, j)
  {
    forall j | 0 < j < k + 1 ensures GoodSample(os, s, j) {
      GoodSampleShift(os, s, j - 1);
    }
  }

  /**
   * isConnectionEstablished needs CONN_CHECK_NUM_TRIES good samples in a row:
   * it succeeds exactly when every sample is good.
   */
  lemma {:induction false} VerifySucceeds(os: Oracle, s: HostState, info: DeviceInfo, i: nat)
    requires i <= CONN_CHECK_NUM_TRIES
    ensures Verify(os, s, info, i).ok <==> forall j :: 0 <= j < CONN_CHECK_NUM_TRIES - i ==> GoodSample(os, s, j)
    decreases CONN_CHECK_NUM_TRIES - i
  {
    if i < CONN_CHECK_NUM_TRIES {
      if GoodSample(os, s, 0) {
        VerifyUnfoldGood(os, s, info, i);
        var t := AfterGoodSample(s);
        VerifySucceeds(os, t, Refreshed(info, os.deviceRead(s.deviceReads)), i + 1);
        var n := CONN_CHECK_NUM_TRIES - i;
        if forall j :: 0 <= j < n - 1 ==> GoodSample(os, t, j) {
          forall j | 0 <= j < n ensures GoodSample(os, s, j) {
            if j > 0 { GoodSampleShift(os, s, j - 1); }
          }
        } else {
          var j :| 0 <= j < n - 1 && !GoodSample(os, t, j);
          GoodSampleShift(os, s, j);
        }
      } else {
        VerifyUnfoldBad(os, s, info, i);
      }
    }
  }

  /** A successful isConnectionEstablished made one read, two HID checks and one CONN_CHECK_DELAY sleep per sample. */
  lemma {:induction false} VerifySuccessCounts(os: Oracle, s: HostState, info: DeviceInfo, i: nat)
    requires i <= CONN_CHECK_NUM_TRIES
    ensures var r := Verify(os, s, info, i); var n := CONN_CHECK_NUM_TRIES - i;
      r.ok ==> && r.s.deviceReads == s.deviceReads + n
               && r.s.checkSleeps == s.checkSleeps + n
               && r.s.hidQueries == s.hidQueries + 2 * n
    decreases CONN_CHECK_NUM_TRIES - i
  {
    if i < CONN_CHECK_NUM_TRIES {
      if GoodSample(os, s, 0) {
        VerifyUnfoldGood(os, s, info, i);
        VerifySuccessCounts(os, AfterGoodSample(s), Refreshed(info, os.deviceRead(s.deviceReads)), i + 1);
      } else {
        VerifyUnfoldBad(os, s, info, i);
      }
    }
  }

  /** A failed isConnectionEstablished made k reads, 1 <= k, and k - 1 CONN_CHECK_DELAY sleeps. */
  lemma {:induction false} VerifyFailureCounts(os: Oracle, s: HostState, info: DeviceInfo, i: nat)
    requires i <= CONN_CHECK_NUM_TRIES
    ensures var r := Verify(os, s, info, i);
      !r.ok ==> var k := r.s.deviceReads - s.deviceReads;
                1 <= k <= CONN_CHECK_NUM_TRIES - i && r.s.checkSleeps == s.checkSleeps + k - 1
    decreases CONN_CHECK_NUM_TRIES - i
  {
    if i < CONN_CHECK_NUM_TRIES {
      if GoodSample(os, s, 0) {
        VerifyUnfoldGood(os, s, info, i);
        VerifyFailureCounts(os, AfterGoodSample(s), Refreshed(info, os.deviceRead(s.deviceReads)), i + 1);
      } else {
        VerifyUnfoldBad(os, s, info, i);
      }
    }
  }

  /**
   * When isConnectionEstablished fails, it stops at the first bad sample:
   * the k reads it made were k - 1 good samples and a bad one.
   */
  lemma {:induction false} VerifyFailsAtFirstBadSample(os: Oracle, s: HostState, info: DeviceInfo, i: nat)
    requires i <= CONN_CHECK_NUM_TRIES
    ensures var r := Verify(os, s, info, i);
      !r.ok ==> var k := r.s.deviceReads - s.deviceReads;
                && (forall j :: 0 <= j < k - 1 ==> GoodSample(os, s, j))
                && !GoodSample(os, s, k - 1)
    decreases CONN_CHECK_NUM_TRIES - i
  {
    if i < CONN_CHECK_NUM_TRIES {
      if GoodSample(os, s, 0) {
        VerifyUnfoldGood(os, s, info, i);
        var t := AfterGoodSample(s);
        var info' := Refreshed(info, os.deviceRead(s.deviceReads));
        VerifyFailsAtFirstBadSample(os, t, info', i + 1);
        VerifyFailureCounts(os, t, info', i + 1);
        var r := Verify(os, t, info', i + 1);
        if !r.ok {
          var k := r.s.deviceReads - t.deviceReads;
          GoodPrefixShift(os, s, k - 1);
          GoodSampleShift(os, s, k - 1);
          assert r.s.deviceReads - s.deviceReads == k + 1;
        }
      } else {
        VerifyUnfoldBad(os, s, info, i);
      }
    }
  }

  /**
   * A failed isConnectionEstablished leaves the record as its last
   * successful read left it: the k-th read's fConnected when that read
   * succeeded, and otherwise that of the read before it.
   */
  lemma {:induction false} VerifyFailureRecord(os: Oracle, s: HostState, info: DeviceInfo, i: nat)
    requires i <= CONN_CHECK_NUM_TRIES
    ensures var r := Verify(os, s, info, i);
      !r.ok ==> var k := r.s.deviceReads - s.deviceReads;
                var a := os.deviceRead(s.deviceReads + k - 1);
                r.info.connected == if a.status == ERROR_SUCCESS then a.connected else (k == 1 ==> info.connected)
    decreases CONN_CHECK_NUM_TRIES - i
  {
    if i < CONN_CHECK_NUM_TRIES {
      if GoodSample(os, s, 0) {
        VerifyUnfoldGood(os, s, info, i);
        var t := AfterGoodSample(s);
        var info' := Refreshed(info, os.deviceRead(s.deviceReads));
        VerifyFailureRecord(os, t, info', i + 1);
        VerifyFailureCounts(os, t, info', i + 1);
        var r := Verify(os, t, info', i + 1);
        if !r.ok {
          var k := r.s.deviceReads - t.deviceReads;
          assert t.deviceReads + k - 1 == s.deviceReads + (k + 1) - 1;
        }
      } else {
        VerifyUnfoldBad(os, s, info, i);
      }
    }
  }

  /** Read n of the device succeeds and shows it not connected. */
  predicate ShowsDisconnected(os: Oracle, n: nat) {
    os.deviceRead(n).status == ERROR_SUCCESS && !os.deviceRead(n).connected
  }

  /**
   * A controller that every read shows present but not connected is tried
   * CONN_RETRIES times, never gets the registry patch, and is removed.
   */
  lemma NeverConnectedIsRemoved(os: Oracle, s: HostState, info: DeviceInfo)
    requires forall n :: s.deviceReads <= n < s.deviceReads + CONN_RETRIES ==> ShowsDisconnected(os, n)
    ensures var r := Pair(os, s, info);
      && r.exit == Exhausted && r.iterations == CONN_RETRIES
      && r.s.removed == s.removed + [info.address]
      && r.s.retrySleeps == s.retrySleeps + CONN_RETRIES
      && r.s.patches == s.patches && r.s.registry == s.registry
  {
    RetryNeverConnected(os, s, info, 0);
  }

  lemma {:induction false} RetryNeverConnected(os: Oracle, s: HostState, info: DeviceInfo, i: nat)
    requires i < CONN_RETRIES
    requires forall n :: s.deviceReads <= n < s.deviceReads + (CONN_RETRIES - i) ==> ShowsDisconnected(os, n)
    ensures var r := Retry(os, s, info, i);
      && r.exit == Exhausted && !r.info.connected
      && r.s.patches == s.patches && r.s.registry == s.registry
    decreases CONN_RETRIES - i
  {
    assert ShowsDisconnected(os, s.deviceReads);
    var st := Iteration(os, s, info);
    assert st.s.deviceReads == s.deviceReads + 1 && st.exit.None?;
    if i + 1 < CONN_RETRIES {
      RetryNeverConnected(os, st.s, st.info, i + 1);
    }
  }

  /** An iteration whose read shows the device not connected only sleeps and goes on. */
  lemma RetryPastDisconnected(os: Oracle, s: HostState, info: DeviceInfo, i: nat)
    requires i + 1 < CONN_RETRIES && ShowsDisconnected(os, s.deviceReads)
    ensures Retry(os, s, info, i)
         == Retry(os, s.(deviceReads := s.deviceReads + 1, retrySleeps := s.retrySleeps + 1),
                  Refreshed(info, os.deviceRead(s.deviceReads)), i + 1)
  {
  }

  /** The samples depend on the state only through its read and HID-check cursors. */
  lemma AllSamplesGoodFrom(os: Oracle, s: HostState, t: HostState)
    requires AllSamplesGood(os, s) && s.deviceReads == t.deviceReads && s.hidQueries == t.hidQueries
    ensures AllSamplesGood(os, t)
  {
    forall j | 0 <= j < CONN_CHECK_NUM_TRIES ensures GoodSample(os, t, j) {
      assert GoodSample(os, s, j);
    }
  }

  /**
   * An iteration whose read shows the device connected, with HID already
   * enabled and every sample good, patches the registry once and ends verified.
   */
  lemma IterationVerifiesAtOnce(os: Oracle, s: HostState, info: DeviceInfo)
    requires os.deviceRead(s.deviceReads).status == ERROR_SUCCESS && os.deviceRead(s.deviceReads).connected
    requires HidServiceEnabled(os.installedServices(s.hidQueries))
    requires AllSamplesGood(os, s.(deviceReads := s.deviceReads + 1, hidQueries := s.hidQueries + 1))
    ensures var r := Iteration(os, s, info);
      && r.exit == Some(Verified)
      && r.s.removed == s.removed && r.s.patches == s.patches + 1 && r.s.retrySleeps == s.retrySleeps
  {
    var rd := GetDeviceInfo(os, s, info);
    var p := Patch(os, rd.s, rd.info);
    var q := HidQuery(os, p.s);
    AllSamplesGoodFrom(os, s.(deviceReads := s.deviceReads + 1, hidQueries := s.hidQueries + 1), q.s);
    VerifySucceeds(os, q.s, rd.info, 0);
  }

  /** The verifier's outcome and record depend on the state only through its read and HID-check cursors. */
  lemma {:induction false} VerifyCursors(os: Oracle, s: HostState, t: HostState, info: DeviceInfo, i: nat)
    requires i <= CONN_CHECK_NUM_TRIES && s.deviceReads == t.deviceReads && s.hidQueries == t.hidQueries
    ensures Verify(os, s, info, i).ok == Verify(os, t, info, i).ok
    ensures Verify(os, s, info, i).info == Verify(os, t, info, i).info
    decreases CONN_CHECK_NUM_TRIES - i
  {
    if i < CONN_CHECK_NUM_TRIES {
      if GoodSample(os, s, 0) {
        assert GoodSample(os, t, 0);
        var a := os.deviceRead(s.deviceReads);
        VerifyUnfoldGood(os, s, info, i);
        VerifyUnfoldGood(os, t, info, i);
        VerifyCursors(os, AfterGoodSample(s), AfterGoodSample(t), Refreshed(info, a), i + 1);
      } else {
        assert !GoodSample(os, t, 0);
        VerifyUnfold(os, s, info, i);
        VerifyUnfold(os, t, info, i);
      }
    }
  }

  /**
   * The verification branch of an iteration: once a connected read has HID
   * on, already or by a successful enable, the iteration breaks verified
   * exactly when the five samples after it are all good, and otherwise only
   * sleeps and goes on. Either way the record it passes on is the one the
   * verifier left, so the removal test after the loop sees the verifier's
   * last successful read.
   */
  lemma IterationVerification(os: Oracle, s: HostState, info: DeviceInfo)
    ensures var r := Iteration(os, s, info); var a := os.deviceRead(s.deviceReads);
      var hid := HidServiceEnabled(os.installedServices(s.hidQueries));
      var enabled := os.setServiceState(s.enableCalls) == ERROR_SUCCESS;
      var t := s.(deviceReads := s.deviceReads + 1, hidQueries := s.hidQueries + 1);
      a.status == ERROR_SUCCESS && a.connected && (hid || enabled) ==>
        && (r.exit == Some(Verified) <==> AllSamplesGood(os, t))
        && (r.exit != Some(Verified) ==> r.exit.None?)
        && r.info == Verify(os, t, Refreshed(info, a), 0).info
  {
    var a := os.deviceRead(s.deviceReads);
    var t := s.(deviceReads := s.deviceReads + 1, hidQueries := s.hidQueries + 1);
    if a.status == ERROR_SUCCESS && a.connected {
      var rd := GetDeviceInfo(os, s, info);
      var p := Patch(os, rd.s, rd.info);
      var q := HidQuery(os, p.s);
      var en := EnableHid(os, q.s);
      if q.yes || en.yes {
        var v0 := if q.yes then q.s else Patch(os, en.s, rd.info).s;
        assert Iteration(os, s, info) == Verifying(os, v0, rd.info);
        VerifyCursors(os, v0, t, rd.info, 0);
        VerifySucceeds(os, t, rd.info, 0);
      }
    }
  }

  /**
   * A controller that connects on the third iteration with HID already
   * enabled and then passes all samples is patched once, reported verified
   * after three iterations, and not removed.
   */
  lemma ConnectedOnThirdIteration(os: Oracle, s: HostState, info: DeviceInfo)
    requires ShowsDisconnected(os, s.deviceReads) && ShowsDisconnected(os, s.deviceReads + 1)
    requires os.deviceRead(s.deviceReads + 2).status == ERROR_SUCCESS && os.deviceRead(s.deviceReads + 2).connected
    requires HidServiceEnabled(os.installedServices(s.hidQueries))
    requires AllSamplesGood(os, s.(deviceReads := s.deviceReads + 3, hidQueries := s.hidQueries + 1))
    ensures var r := Pair(os, s, info);
      && r.exit == Verified && r.iterations == 3
      && r.s.removed == s.removed && r.s.patches == s.patches + 1
      && r.s.retrySleeps == s.retrySleeps + 2
  {
    RetryPastDisconnected(os, s, info, 0);
    var s1 := s.(deviceReads := s.deviceReads + 1, retrySleeps := s.retrySleeps + 1);
    var info1 := Refreshed(info, os.deviceRead(s.deviceReads));
    RetryPastDisconnected(os, s1, info1, 1);
    var s2 := s1.(deviceReads := s1.deviceReads + 1, retrySleeps := s1.retrySleeps + 1);
    var info2 := Refreshed(info1, os.deviceRead(s1.deviceReads));
    AllSamplesGoodFrom(os, s.(deviceReads := s.deviceReads + 3, hidQueries := s.hidQueries + 1),
                       s2.(deviceReads := s2.deviceReads + 1, hidQueries := s2.hidQueries + 1));
    IterationVerifiesAtOnce(os, s2, info2);
    RetryUnfold(os, s2, info2, 2);
    var st := Iteration(os, s2, info2);
    assert Retry(os, s, info, 0) == Attempt(st.s, st.info, Verified, 3);
  }

  /** Only motion controllers are touched: the other devices of a list change nothing. */
  lemma {:induction false} ProcessSkipsOthers(os: Oracle, s: HostState, list: seq<DeviceInfo>)
    ensures Process(os, s, list) == Process(os, s, Controllers(list))
    decreases |list|
  {
    if list != [] {
      var s1 := Visit(os, s, list[0]);
      ProcessSkipsOthers(os, s1, list[1..]);
      var c := Controllers(list);
      if IsMoveMotionController(list[0]) {
        assert c[0] == list[0] && c[1..] == Controllers(list[1..]);
      } else {
        assert c == Controllers(list[1..]);
      }
    }
  }

  /**
   * No controller is remembered as done: every motion controller of the
   * list, including one verified in an earlier cycle, gets the retry loop
   * again and so at least one fresh read.
   */
  lemma {:induction false} ProcessReadsEveryController(os: Oracle, s: HostState, list: seq<DeviceInfo>)
    ensures Process(os, s, list).deviceReads >= s.deviceReads + |Controllers(list)|
    decreases |list|
  {
    if list != [] {
      var s1 := Visit(os, s, list[0]);
      ProcessReadsEveryController(os, s1, list[1..]);
    }
  }

  /** Processing a list and then one more device is processing the longer list. */
  lemma {:induction false} ProcessSnoc(os: Oracle, s: HostState, list: seq<DeviceInfo>, d: DeviceInfo)
    ensures Process(os, s, list + [d]) == Visit(os, Process(os, s, list), d)
    decreases |list|
  {
    if list == [] {
      assert [d][1..] == [];
    } else {
      var s1 := Visit(os, s, list[0]);
      var longer := list + [d];
      assert longer[0] == list[0] && longer[1..] == list[1..] + [d];
      assert Process(os, s, longer) == Process(os, s1, list[1..] + [d]);
      assert Process(os, s, list) == Process(os, s1, list[1..]);
      ProcessSnoc(os, s1, list[1..], d);
    }
  }

  /**
   * Each motion controller of a list gets its own retry loop, in list order:
   * processing the first k + 1 controllers is processing the first k and
   * then pairing controller k, which reads the device at least once.
   */
  lemma ProcessPairsEachController(os: Oracle, s: HostState, list: seq<DeviceInfo>, k: nat)
    requires k < |Controllers(list)|
    ensures var c := Controllers(list); var before := Process(os, s, c[..k]);
      && Process(os, s, c[..k + 1]) == Pair(os, before, c[k]).s
      && Process(os, s, c[..k + 1]).deviceReads > before.deviceReads
  {
    var c := Controllers(list);
    assert c[k] in c;
    assert c[..k + 1] == c[..k] + [c[k]];
    ProcessSnoc(os, s, c[..k], c[k]);
  }

  /** Address a is that of a motion controller in the list. */
  predicate ControllerIn(list: seq<DeviceInfo>, a: Address) {
    exists d :: d in list && IsMoveMotionController(d) && d.address == a
  }

  /** Every device an enumeration's processing removes is a motion controller of its list. */
  lemma {:induction false} ProcessRemovesOnlyControllers(os: Oracle, s: HostState, list: seq<DeviceInfo>)
    ensures var r := Process(os, s, list);
      forall k :: |s.removed| <= k < |r.removed| ==> ControllerIn(list, r.removed[k])
    decreases |list|
  {
    if list != [] {
      var s1 := Visit(os, s, list[0]);
      var r := Process(os, s, list);
      assert r == Process(os, s1, list[1..]);
      ProcessRemovesOnlyControllers(os, s1, list[1..]);
      forall k | |s.removed| <= k < |r.removed| ensures ControllerIn(list, r.removed[k]) {
        if k < |s1.removed| {
          assert r.removed[k] == s1.removed[k] == list[0].address;
        } else {
          assert ControllerIn(list[1..], r.removed[k]);
          var d :| d in list[1..] && IsMoveMotionController(d) && d.address == r.removed[k];
          assert d in list;
        }
      }
    }
  }

  /**
   * The scan loop stops at the first cycle whose top sees cancellation and
   * only there, having added one scan and one SLEEP_BETWEEN_SCANS per cycle.
   */
  lemma {:induction false} RunStopsAtCancellation(os: Oracle, s: HostState, loop: Uint, stopAt: nat)
    requires os.exitRequested(stopAt) && |s.scans| <= stopAt
    ensures var r := Run(os, s, loop, stopAt);
      && |s.scans| <= |r.scans| <= stopAt && r.scans[..|s.scans|] == s.scans
      && os.exitRequested(|r.scans|)
      && (forall n :: |s.scans| <= n < |r.scans| ==> !os.exitRequested(n))
      && r.scanSleeps == s.scanSleeps + (|r.scans| - |s.scans|)
    decreases stopAt - |s.scans|
  {
    if !os.exitRequested(|s.scans|) {
      var c := Cycle(os, s, loop);
      RunStopsAtCancellation(os, c, (loop + 1) % UINT_RANGE, stopAt);
      var r := Run(os, c, (loop + 1) % UINT_RANGE, stopAt);
      assert r.scans[..|s.scans|] == r.scans[..|c.scans|][..|s.scans|];
    }
  }

  /**
   * Cycle n of the scan loop forces an inquiry exactly when its counter
   * (loop + n, wrapped to unsigned int) is a multiple of BT_SCAN_NEW_INQUIRY.
   */
  lemma {:induction false} RunInquirySchedule(os: Oracle, s: HostState, loop: Uint, stopAt: nat, n: nat)
    requires os.exitRequested(stopAt) && |s.scans| <= stopAt
    requires |s.scans| <= n < |Run(os, s, loop, stopAt).scans|
    ensures Run(os, s, loop, stopAt).scans[n] == ((loop + (n - |s.scans|)) % UINT_RANGE % BT_SCAN_NEW_INQUIRY == 0)
    decreases stopAt - |s.scans|
  {
    assert !os.exitRequested(|s.scans|);
    if n == |s.scans| {
      RunFirstScan(os, s, loop, stopAt);
      assert (loop + 0) % UINT_RANGE == loop;
    } else {
      var c := Cycle(os, s, loop);
      var next: Uint := (loop + 1) % UINT_RANGE;
      assert Run(os, s, loop, stopAt) == Run(os, c, next, stopAt);
      RunInquirySchedule(os, c, next, stopAt, n);
      WrapShift(loop, n - |s.scans|);
    }
  }

  /** The first cycle run from a state records the inquiry flag of its own counter. */
  lemma RunFirstScan(os: Oracle, s: HostState, loop: Uint, stopAt: nat)
    requires os.exitRequested(stopAt) && |s.scans| <= stopAt && !os.exitRequested(|s.scans|)
    ensures |s.scans| < |Run(os, s, loop, stopAt).scans|
    ensures Run(os, s, loop, stopAt).scans[|s.scans|] == (loop % BT_SCAN_NEW_INQUIRY == 0)
  {
    var c := Cycle(os, s, loop);
    var next: Uint := (loop + 1) % UINT_RANGE;
    RunStopsAtCancellation(os, c, next, stopAt);
    var r := Run(os, c, next, stopAt);
    assert r.scans[..|c.scans|] == c.scans;
    assert r.scans[|s.scans|] == c.scans[|s.scans|];
  }

  /** Counting m cycles on from loop + 1 (wrapped) is counting m + 1 on from loop. */
  lemma WrapShift(loop: Uint, m: nat)
    requires m >= 1
    ensures ((loop + 1) % UINT_RANGE + (m - 1)) % UINT_RANGE == (loop + m) % UINT_RANGE
  {
  }
}
