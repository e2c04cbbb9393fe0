/**
 * What the pairing tool sees of the Windows Bluetooth and registry APIs:
 * DWORD status codes, the device record, service GUIDs, and the answers the
 * operating system gives. The operating system itself is not modelled: an
 * Oracle gives, for each kind of call, the answer to the n-th call of that
 * kind, so every sequence of answers the OS could give is one Oracle.
 */
module Win32 {
  import opened BdAddr

  type Dword = x: int | 0 <= x < 0x1_0000_0000
  type Word = x: int | 0 <= x < 0x1_0000

  const ERROR_SUCCESS: Dword := 0
  const ERROR_MORE_DATA: Dword := 234

  /** BLUETOOTH_DEVICE_INFO: the fields the tool reads. */
  datatype DeviceInfo = DeviceInfo(
    address: Address,
    name: string,
    classOfDevice: Dword,
    connected: bool,
    remembered: bool,
    authenticated: bool)

  datatype Guid = Guid(data1: Dword, data2: Word, data3: Word, data4: seq<Byte>)

  /** HumanInterfaceDeviceServiceClass_UUID: service class 0x1124 on the Bluetooth base UUID. */
  const HidServiceClassUuid := Guid(0x00001124, 0x0000, 0x1000, [0x80, 0x00, 0x00, 0x80, 0x5F, 0x9B, 0x34, 0xFB])

  /** The answer to BluetoothGetDeviceInfo: a status and, on success, the live flags. */
  datatype DeviceRead = DeviceRead(status: Dword, connected: bool, remembered: bool, authenticated: bool)

  /**
   * The two BluetoothEnumerateInstalledServices calls of one HID check: the
   * count query (status, number of services) and the list query (status, and
   * the std::vector<GUID> of `count` entries as the query leaves it; entries
   * the OS did not write keep the zero GUID the vector started with).
   */
  datatype HidReply = HidReply(countStatus: Dword, count: Dword, listStatus: Dword, buffer: seq<Guid>)

  type HidAnswer = a: HidReply | |a.buffer| == a.count witness HidReply(0, 0, 0, [])

  /** The answer to BluetoothGetRadioInfo: a status and, on success, the radio's address. */
  datatype RadioRead = RadioRead(status: Dword, address: Address)

  datatype Oracle = Oracle(
    exitRequested: nat -> bool,          // g_exitRequested as seen at the top of cycle n
    deviceList: nat -> seq<DeviceInfo>,  // the n-th device enumeration
    deviceRead: nat -> DeviceRead,       // the n-th BluetoothGetDeviceInfo
    installedServices: nat -> HidAnswer, // the n-th isHidServiceEnabled
    setServiceState: nat -> Dword,       // the n-th BluetoothSetServiceState
    radioInfo: nat -> RadioRead,         // the n-th BluetoothGetRadioInfo
    regOpen: nat -> Dword,               // the n-th RegOpenKeyEx
    regSet: nat -> Dword)                // the n-th RegSetValueEx
}
