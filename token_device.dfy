/** The devices a token can be issued for. */
module TokenDevice {

  const DeviceApi: string := "api"

  function TokenDeviceValues(): (ds: seq<string>)
    ensures |ds| == 1 && ds[0] == DeviceApi
  {
    [DeviceApi]
  }

  function IsValidTokenDevice(device: string): (ok: bool)
    ensures ok <==> device == "api"
  {
    device == DeviceApi
  }

  /** The list of devices and the validity check agree exactly. */
  lemma {:induction false} ValuesAreExactlyTheValidDevices(device: string)
    ensures IsValidTokenDevice(device) <==> device in TokenDeviceValues()
  {
  }
}
