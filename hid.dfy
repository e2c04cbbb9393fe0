/** isHidServiceEnabled: the decision taken from the two service queries. */
module Hid {
  import opened Win32

  /** isHidServiceEnabled's decision, from the answers to its two queries. */
  function HidServiceEnabled(a: HidAnswer): bool {
    if a.countStatus != ERROR_SUCCESS && a.countStatus != ERROR_MORE_DATA then false
    else if a.count == 0 then false
    else if a.listStatus != ERROR_SUCCESS then false
    else HidServiceClassUuid in a.buffer
  }

  /**
   * False when the count query fails with anything but ERROR_MORE_DATA, when
   * no service is installed, or when the list query fails; otherwise true
   * exactly when the HID service class is one of the buffer's entries.
   */
  lemma HidServiceEnabledCases(a: HidAnswer)
    ensures a.countStatus != ERROR_SUCCESS && a.countStatus != ERROR_MORE_DATA ==> !HidServiceEnabled(a)
    ensures a.count == 0 ==> !HidServiceEnabled(a)
    ensures a.listStatus != ERROR_SUCCESS ==> !HidServiceEnabled(a)
    ensures (a.countStatus == ERROR_SUCCESS || a.countStatus == ERROR_MORE_DATA) && a.count > 0
              && a.listStatus == ERROR_SUCCESS
            ==> (HidServiceEnabled(a) <==> exists k :: 0 <= k < a.count && a.buffer[k] == HidServiceClassUuid)
  {
  }

  /** std::find over the service list: the index of the first match, or the end. */
  method Find(services: seq<Guid>, uuid: Guid) returns (at: nat)
    ensures at <= |services|
    ensures at < |services| ==> services[at] == uuid
    ensures forall k :: 0 <= k < at ==> services[k] != uuid
    ensures at == |services| <==> uuid !in services
  {
    at := 0;
    while at < |services| && services[at] != uuid
      invariant at <= |services|
      invariant forall k :: 0 <= k < at ==> services[k] != uuid
    {
      at := at + 1;
    }
  }
}
