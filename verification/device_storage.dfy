/**
 * The browser-side device id of `src/lib/device.ts`: a positive integer kept
 * under the `device_id` key of local storage. `window` is absent during
 * server rendering; then reads give `null` and writes do nothing.
 */
module DeviceStorage {
  import opened Wrappers
  import opened Decimal
  import opened Js

  const DeviceIdKey := "device_id"

  /** Local storage: string values by key. */
  type Storage = map<string, string>

  /** What a page sees: no window at all, or a window with its storage. */
  datatype Host = NoWindow | Browser(storage: Storage)

  /** `getDeviceId()` */
  function GetDeviceId(host: Host): (r: Option<int>)
    ensures host.NoWindow? ==> r.None?
    ensures host.Browser? && (DeviceIdKey !in host.storage || host.storage[DeviceIdKey] == "") ==> r.None?
    ensures r.Some? <==>
              host.Browser? && DeviceIdKey in host.storage && host.storage[DeviceIdKey] != ""
              && NumberIsInteger(ToNumber(host.storage[DeviceIdKey]))
              && ToNumber(host.storage[DeviceIdKey]).x > 0.0
    ensures r.Some? ==> r.value > 0 && ToNumber(host.storage[DeviceIdKey]) == Finite(r.value as real)
  {
    if host.NoWindow? then None
    else if DeviceIdKey !in host.storage || host.storage[DeviceIdKey] == "" then None
    else
      var n := ToNumber(host.storage[DeviceIdKey]);
      if NumberIsInteger(n) && n.x > 0.0 then Some(AsInt(n)) else None
  }

  /** `setDeviceId(id)`: only a positive integer is stored, as its decimal spelling. */
  function SetDeviceId(host: Host, id: JsNumber): (h: Host)
    ensures host.NoWindow? ==> h == host
    ensures !(NumberIsInteger(id) && id.x > 0.0) ==> h == host
    ensures host.Browser? && NumberIsInteger(id) && id.x > 0.0 ==>
              h.Browser? && h.storage == host.storage[DeviceIdKey := IntToString(AsInt(id))]
  {
    if host.NoWindow? then host
    else if !NumberIsInteger(id) || id.x <= 0.0 then host
    else Browser(host.storage[DeviceIdKey := IntToString(AsInt(id))])
  }

  /** Storing a positive integer and reading it back gives that integer. */
  lemma SetThenGet(storage: Storage, n: int)
    requires n > 0
    ensures GetDeviceId(SetDeviceId(Browser(storage), Finite(n as real))) == Some(n)
  {
    IntSpellingRoundTrip(n);
  }

  /** `setDeviceId` accepts exactly the positive integers. */
  predicate Accepted(id: JsNumber) {
    NumberIsInteger(id) && id.x > 0.0
  }

  /** A run of `setDeviceId` calls, oldest first. */
  function SetAll(host: Host, ids: seq<JsNumber>): (h: Host)
    ensures h.NoWindow? <==> host.NoWindow?
    decreases |ids|
  {
    if |ids| == 0 then host else SetDeviceId(SetAll(host, ids[..|ids| - 1]), ids[|ids| - 1])
  }

  /** The newest id of the run that `setDeviceId` accepts. */
  function LastAccepted(ids: seq<JsNumber>): (r: Option<int>)
    ensures r.Some? ==> r.value > 0 && exists i :: 0 <= i < |ids| && Accepted(ids[i]) && ids[i] == Finite(r.value as real)
    ensures r.None? <==> forall i :: 0 <= i < |ids| ==> !Accepted(ids[i])
    decreases |ids|
  {
    if |ids| == 0 then None
    else
      var last := ids[|ids| - 1];
      var init := ids[..|ids| - 1];
      assert forall i :: 0 <= i < |init| ==> init[i] == ids[i];
      if Accepted(last) then Some(AsInt(last)) else LastAccepted(init)
  }

  /**
   * Whatever storage held before and whatever ids the page passes, a read
   * after a run of writes gives the newest accepted id, or, when none was
   * accepted, what the first read gave; so no read ever yields a
   * non-positive id.
   */
  lemma {:induction false} ReadAfterWrites(host: Host, ids: seq<JsNumber>)
    ensures host.Browser? && LastAccepted(ids).Some? ==> GetDeviceId(SetAll(host, ids)) == LastAccepted(ids)
    ensures LastAccepted(ids).None? ==> GetDeviceId(SetAll(host, ids)) == GetDeviceId(host)
    ensures host.NoWindow? ==> GetDeviceId(SetAll(host, ids)).None?
    ensures var r := GetDeviceId(SetAll(host, ids)); r.Some? ==> r.value > 0
  {
    if |ids| > 0 {
      var init := ids[..|ids| - 1];
      var last := ids[|ids| - 1];
      ReadAfterWrites(host, init);
      var before := SetAll(host, init);
      if Accepted(last) && before.Browser? {
        SetThenGet(before.storage, AsInt(last));
      }
    }
  }

  /** Rejected ids leave storage, and so the next read, as they were. */
  lemma RejectedIdKeepsRead(host: Host, id: JsNumber)
    requires !(NumberIsInteger(id) && id.x > 0.0)
    ensures GetDeviceId(SetDeviceId(host, id)) == GetDeviceId(host)
  {
  }

  /** Other keys of local storage are never touched. */
  lemma SetKeepsOtherKeys(storage: Storage, id: JsNumber, key: string)
    requires key != DeviceIdKey
    ensures var h := SetDeviceId(Browser(storage), id);
            h.Browser? && (key in h.storage <==> key in storage) && (key in storage ==> h.storage[key] == storage[key])
  {
  }
}
