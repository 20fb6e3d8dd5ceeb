/**
 * The declarations of include/main.h: the Bluetooth state record `bt`, the
 * client record `btClient`, the two service identifiers, and the callback
 * classes the radio stack invokes on connection and advertisement events.
 *
 * Each callback is an atomic step on the shared records. The pure functions
 * AfterConnect, AfterDisconnect and AfterResult give the new value of the
 * records; the callback methods are proved to produce exactly that value.
 */
module MainH {
  import opened StdInt
  import MacText

  const UUID_SERVICE: string := "734c019d-0055-4922-a5e1-943d57c8281a"
  const UUID_CHARACTERISTIC: string := "671acaa6-7c79-4722-9ad0-4bdf3118695a"

  /** Size of `mac_address`: a MAC address has six bytes. */
  const MAC_ADDRESS_SIZE: nat := 6
  /** Size of the `server_mac_address` character buffer. */
  const SERVER_MAC_ADDRESS_SIZE: nat := 18

  /** What the model keeps of a `BLEAdvertisedDevice`: whether it advertises a service UUID, and which. */
  datatype AdvertisedDevice = AdvertisedDevice(haveServiceUUID: bool, serviceUUID: string)

  /** A default-constructed `BLEAdvertisedDevice`, advertising no service. */
  const NO_DEVICE: AdvertisedDevice := AdvertisedDevice(false, "")

  /** A pointer returned by the radio stack: null, or some object it owns. */
  datatype Pointer = Null | Ptr(id: nat)

  /** The value held in a `BTState` record. */
  datatype BTStateValue = BTStateValue(
    isBtConnected: bool,
    isEnConnected: bool,
    isError: bool,
    delay: uint16,
    macAddress: seq<uint8>,
    serverMacAddress: seq<char>)

  /** The value held in the modelled fields of a `BTClient` record. */
  datatype BTClientValue = BTClientValue(
    remoteService: Pointer,
    remoteCharacteristic: Pointer,
    advertisedDevice: AdvertisedDevice)

  /** The Bluetooth state record `bt`, updated in place by the callbacks and by `loop`. */
  class BTState {
    var isBtConnected: bool
    var isEnConnected: bool
    var isError: bool
    var delay: uint16
    const macAddress: array<uint8>
    const serverMacAddress: array<char>

    ghost predicate Valid()
      reads this
    {
      macAddress.Length == MAC_ADDRESS_SIZE && serverMacAddress.Length == SERVER_MAC_ADDRESS_SIZE
    }

    ghost function Value(): BTStateValue
      reads this, macAddress, serverMacAddress
    {
      BTStateValue(isBtConnected, isEnConnected, isError, delay, macAddress[..], serverMacAddress[..])
    }

    /** Static storage of the global: every field zero. */
    constructor ()
      ensures Valid() && fresh(macAddress) && fresh(serverMacAddress)
      ensures Value() == BTStateValue(false, false, false, 0,
                                      seq(MAC_ADDRESS_SIZE, _ => 0), seq(SERVER_MAC_ADDRESS_SIZE, _ => '\0'))
    {
      isBtConnected, isEnConnected, isError, delay := false, false, false, 0;
      macAddress := new uint8[MAC_ADDRESS_SIZE](_ => 0);
      serverMacAddress := new char[SERVER_MAC_ADDRESS_SIZE](_ => '\0');
    }
  }

  /** The client record `btClient`; the scan and client handles are the radio stack's and are not modelled. */
  class BTClient {
    var remoteService: Pointer
    var remoteCharacteristic: Pointer
    var advertisedDevice: AdvertisedDevice

    ghost function Value(): BTClientValue
      reads this
    {
      BTClientValue(remoteService, remoteCharacteristic, advertisedDevice)
    }

    /** Static storage of the global: null pointers and a default device. */
    constructor ()
      ensures Value() == BTClientValue(Null, Null, NO_DEVICE)
    {
      remoteService, remoteCharacteristic, advertisedDevice := Null, Null, NO_DEVICE;
    }
  }

  /** The filter of `onResult`: the device advertises a service UUID and it is UUID_SERVICE. */
  predicate IsGameSword(device: AdvertisedDevice)
  {
    device.haveServiceUUID && device.serviceUUID == UUID_SERVICE
  }

  /** `bt` after `onConnect`: connected, and nothing else changed. */
  function AfterConnect(s: BTStateValue): (r: BTStateValue)
    ensures r.isBtConnected
    ensures r.(isBtConnected := s.isBtConnected) == s
  {
    s.(isBtConnected := true)
  }

  /** `bt` after `onDisconnect`: disconnected and in error, and nothing else changed. */
  function AfterDisconnect(s: BTStateValue): (r: BTStateValue)
    ensures !r.isBtConnected && r.isError
    ensures r.(isBtConnected := s.isBtConnected, isError := s.isError) == s
  {
    s.(isBtConnected := false, isError := true)
  }

  /**
   * `bt` and `btClient` after `onResult(device)`: a device advertising
   * UUID_SERVICE is kept as the advertised device and marks `bt` connected;
   * any other device changes nothing.
   */
  function AfterResult(s: BTStateValue, c: BTClientValue, device: AdvertisedDevice): (r: (BTStateValue, BTClientValue))
    ensures IsGameSword(device) ==>
      && r.0.isBtConnected && r.0.(isBtConnected := s.isBtConnected) == s
      && r.1.advertisedDevice == device && r.1.(advertisedDevice := c.advertisedDevice) == c
    ensures !IsGameSword(device) ==> r == (s, c)
  {
    if IsGameSword(device) then (s.(isBtConnected := true), c.(advertisedDevice := device))
    else (s, c)
  }

  /** No callback ever clears the error flag, and only `onDisconnect` sets it. */
  lemma CallbacksKeepError(s: BTStateValue, c: BTClientValue, device: AdvertisedDevice)
    ensures AfterConnect(s).isError == s.isError
    ensures AfterDisconnect(s).isError
    ensures AfterResult(s, c, device).0.isError == s.isError
  {
  }

  /** The formatted server address and its terminator fill `server_mac_address` exactly. */
  lemma ServerMacAddressFits(raw: seq<uint8>)
    requires |raw| >= MacText.MAC_LENGTH
    ensures |MacText.FormatMac(raw)| + 1 == SERVER_MAC_ADDRESS_SIZE
  {
  }

  /** `BLEServerCallbacks` installed on the server; both events write the global `bt`. */
  class BluetoothServerCallbacks {
    const bt: BTState

    constructor (bt: BTState)
      ensures this.bt == bt
    {
      this.bt := bt;
    }

    method OnConnect()
      modifies bt`isBtConnected
      ensures bt.Value() == AfterConnect(old(bt.Value()))
    {
      bt.isBtConnected := true;
    }

    method OnDisconnect()
      modifies bt`isBtConnected, bt`isError
      ensures bt.Value() == AfterDisconnect(old(bt.Value()))
    {
      bt.isBtConnected := false;
      bt.isError := true;
    }
  }

  /** `BLEAdvertisedDeviceCallbacks` installed on the scan; writes the globals `bt` and `btClient`. */
  class BluetoothClientCallbacks {
    const bt: BTState
    const btClient: BTClient

    constructor (bt: BTState, btClient: BTClient)
      ensures this.bt == bt && this.btClient == btClient
    {
      this.bt, this.btClient := bt, btClient;
    }

    method OnResult(device: AdvertisedDevice)
      modifies bt`isBtConnected, btClient`advertisedDevice
      ensures (bt.Value(), btClient.Value()) == AfterResult(old(bt.Value()), old(btClient.Value()), device)
    {
      if device.haveServiceUUID && device.serviceUUID == UUID_SERVICE {
        btClient.advertisedDevice := device;
        bt.isBtConnected := true;
        return;
      }
    }
  }
}
