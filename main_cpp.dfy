/**
 * src/main.cpp: `setup`, which initialises the globals and notes when the
 * scan began, and `loop`, the step the Arduino runtime calls repeatedly.
 *
 * Every radio-stack call `loop` makes is replaced by its result, passed in
 * as LoopInputs. LoopStep is the value of the globals after one call of
 * `loop`; Program.Loop is proved to produce it, and the lemmas below state
 * what the step does and does not do, one call at a time and over any
 * sequence of callbacks and calls.
 */
module MainCpp {
  import opened Wrappers
  import opened StdInt
  import opened MainH
  import MacText

  /** How long, in ms, `loop` waits after the scan began before connecting. */
  const SCAN_DURATION_MS: uint32 := 5000

  /** The value of the globals `bt`, `btClient` and `start`. */
  datatype Globals = Globals(bt: BTStateValue, client: BTClientValue, start: uint32)

  /** The results of the radio-stack calls one execution of `loop` makes. */
  datatype LoopInputs = LoopInputs(
    clientConnected: bool,      // pBLEClient->isConnected()
    now: uint32,                // millis()
    connectOk: bool,            // pBLEClient->connect(&advertisedDevice)
    service: Pointer,           // pBLEClient->getService(UUID_SERVICE)
    characteristic: Pointer,    // pRemoteService->getCharacteristic(UUID_CHARACTERISTIC)
    readValue: seq<uint8>)      // pRemoteCharacteristic->readValue(), as bytes

  /** The globals right after `setup` ran at time `now`. */
  function Initial(now: uint32): Globals
  {
    Globals(
      BTStateValue(false, false, false, 0,
                   seq(MAC_ADDRESS_SIZE, _ => 0), seq(SERVER_MAC_ADDRESS_SIZE, _ => '\0')),
      BTClientValue(Null, Null, NO_DEVICE),
      now)
  }

  /** The guard of the first branch of `loop`: neither connected nor in error. */
  predicate Searching(g: Globals)
  {
    !g.bt.isBtConnected && !g.bt.isError
  }

  /** The client reports a connection and the scan began at least 5 s ago, in uint32 time. */
  predicate ScanDone(g: Globals, io: LoopInputs)
  {
    io.clientConnected && Sub32(io.now, g.start) >= SCAN_DURATION_MS
  }

  /** `loop` gets as far as reading the server's characteristic. */
  predicate ReachesRead(g: Globals, io: LoopInputs)
  {
    Searching(g) && ScanDone(g, io) && io.connectOk && io.service != Null && io.characteristic != Null
  }

  /** The 18 characters `sprintf` leaves in `server_mac_address`: the text and its terminator. */
  function ServerMacText(raw: seq<uint8>): (t: seq<char>)
    requires |raw| >= MacText.MAC_LENGTH
    ensures |t| == SERVER_MAC_ADDRESS_SIZE && t[MacText.MAC_TEXT_LENGTH] == '\0'
    ensures MacText.ParseMac(t[..MacText.MAC_TEXT_LENGTH]) == Some(raw[..MacText.MAC_LENGTH])
  {
    var text := MacText.FormatMac(raw);
    MacText.FormatParseInverse(raw[..MacText.MAC_LENGTH], text);
    assert MacText.FormatMac(raw[..MacText.MAC_LENGTH]) == text by {
      assert raw[..MacText.MAC_LENGTH][..MacText.MAC_LENGTH] == raw[..MacText.MAC_LENGTH];
    }
    var t := text + ['\0'];
    assert t[..MacText.MAC_TEXT_LENGTH] == text;
    t
  }

  /** The globals after one call of `loop`. */
  function LoopStep(g: Globals, io: LoopInputs): Globals
    requires ReachesRead(g, io) ==> |io.readValue| >= MacText.MAC_LENGTH
  {
    if Searching(g) then
      if !io.clientConnected || Sub32(io.now, g.start) < SCAN_DURATION_MS then g
      else if !io.connectOk then g
      else
        var g1 := g.(client := g.client.(remoteService := io.service));
        if io.service == Null then g1
        else
          var g2 := g1.(client := g1.client.(remoteCharacteristic := io.characteristic));
          if io.characteristic == Null then g2
          else g2.(bt := g2.bt.(serverMacAddress := ServerMacText(io.readValue), isBtConnected := true))
    else
      g
  }

  /** The globals, as one object: `bt` and `btClient` from include/main.h, `start` from src/main.cpp. */
  class Program {
    const bt: BTState
    const btClient: BTClient
    var start: uint32

    ghost predicate Valid()
      reads this, bt
    {
      bt.Valid()
    }

    ghost function Value(): Globals
      reads this, bt, bt.macAddress, bt.serverMacAddress, btClient
    {
      Globals(bt.Value(), btClient.Value(), start)
    }

    /** Static storage of the globals, before `setup` runs. */
    constructor ()
      ensures Valid() && fresh(bt) && fresh(btClient) && fresh(bt.macAddress) && fresh(bt.serverMacAddress)
    {
      bt := new BTState();
      btClient := new BTClient();
      start := 0;
    }

    /**
     * `setup`, with `now` the value `millis()` returns when `start` is
     * assigned, after the scan has been started: every flag false, `delay`
     * 0, both address buffers zeroed, no remote service or characteristic,
     * and `start` equal to `now`.
     */
    method Setup(now: uint32)
      requires Valid()
      modifies this`start, bt, bt.macAddress, bt.serverMacAddress, btClient
      ensures Valid()
      ensures Value() == Initial(now)
      ensures !bt.isBtConnected && !bt.isEnConnected && !bt.isError && bt.delay == 0
      ensures forall i :: 0 <= i < bt.macAddress.Length ==> bt.macAddress[i] == 0
      ensures forall i :: 0 <= i < bt.serverMacAddress.Length ==> bt.serverMacAddress[i] == '\0'
    {
      bt.isBtConnected, bt.isEnConnected, bt.isError, bt.delay := false, false, false, 0;
      forall i | 0 <= i < bt.macAddress.Length {
        bt.macAddress[i] := 0;
      }
      forall i | 0 <= i < bt.serverMacAddress.Length {
        bt.serverMacAddress[i] := '\0';
      }
      btClient.remoteService, btClient.remoteCharacteristic, btClient.advertisedDevice := Null, Null, NO_DEVICE;
      start := now;
    }

    /** One call of `loop`, given the results of the radio-stack calls it makes. */
    method Loop(io: LoopInputs)
      requires Valid()
      requires ReachesRead(Value(), io) ==> |io.readValue| >= MacText.MAC_LENGTH
      modifies bt`isBtConnected, bt.serverMacAddress, btClient`remoteService, btClient`remoteCharacteristic
      ensures Valid()
      ensures Value() == LoopStep(old(Value()), io)
    {
      if !bt.isBtConnected && !bt.isError {
        if !io.clientConnected || Sub32(io.now, start) < SCAN_DURATION_MS {
          return;
        }
        if !io.connectOk {
          return;
        }
        btClient.remoteService := io.service;
        if btClient.remoteService == Null {
          return;
        }
        btClient.remoteCharacteristic := io.characteristic;
        if btClient.remoteCharacteristic == Null {
          return;
        }
        var text := ServerMacText(io.readValue);
        forall i | 0 <= i < SERVER_MAC_ADDRESS_SIZE {
          bt.serverMacAddress[i] := text[i];
        }
        bt.isBtConnected := true;
      } else if bt.isBtConnected && !bt.isError {
        // Only prints "Connected to Server".
      }
    }
  }

  /** With the error flag set, `loop` changes nothing. */
  lemma LoopIdleOnError(g: Globals, io: LoopInputs)
    requires g.bt.isError
    ensures LoopStep(g, io) == g
  {
  }

  /** Once connected, and without error, `loop` changes nothing. */
  lemma LoopIdleWhenConnected(g: Globals, io: LoopInputs)
    requires g.bt.isBtConnected
    ensures LoopStep(g, io) == g
  {
  }

  /**
   * While searching, `loop` returns without a change unless the client is
   * connected and at least 5000 ms have passed since `start` in uint32 time.
   */
  lemma LoopWaitsForScan(g: Globals, io: LoopInputs)
    requires !ScanDone(g, io)
    ensures LoopStep(g, io) == g
  {
  }

  /**
   * If `loop` does not get as far as reading, `bt` is left as it was: it is
   * not connected and `server_mac_address` is untouched. Only the remote
   * service and characteristic pointers may have been overwritten, and
   * `start` never changes.
   */
  lemma LoopFailureKeepsState(g: Globals, io: LoopInputs)
    requires !ReachesRead(g, io)
    ensures LoopStep(g, io).bt == g.bt
    ensures LoopStep(g, io).start == g.start
    ensures LoopStep(g, io).client.advertisedDevice == g.client.advertisedDevice
  {
  }

  /**
   * If `loop` reads the characteristic, `bt` becomes connected and
   * `server_mac_address` holds the text form of the first six bytes read,
   * laid out as XX:XX:XX:XX:XX:XX and NUL-terminated; nothing else in `bt` changes.
   */
  lemma LoopSuccessStoresAddress(g: Globals, io: LoopInputs)
    requires ReachesRead(g, io) && |io.readValue| >= MacText.MAC_LENGTH
    ensures var b := LoopStep(g, io).bt;
      && b.isBtConnected
      && b.serverMacAddress == MacText.FormatMac(io.readValue) + ['\0']
      && MacText.ParseMac(b.serverMacAddress[..MacText.MAC_TEXT_LENGTH]) == Some(io.readValue[..MacText.MAC_LENGTH])
      && b.(isBtConnected := g.bt.isBtConnected, serverMacAddress := g.bt.serverMacAddress) == g.bt
    ensures LoopStep(g, io).client == g.client.(remoteService := io.service, remoteCharacteristic := io.characteristic)
  {
  }

  /** The events that change the globals after `setup`. */
  datatype Event =
    | ServerConnect                  // BluetoothServerCallbacks::onConnect
    | ServerDisconnect               // BluetoothServerCallbacks::onDisconnect
    | ScanResult(device: AdvertisedDevice)  // BluetoothClientCallbacks::onResult
    | LoopCall(io: LoopInputs)       // one call of loop

  /**
   * A loop call whose read, should it happen, yields at least six bytes.
   * This asks six bytes of every loop call in a trace, also of calls that
   * return before the read; the value of `readValue` is not used by those
   * calls, so the trace lemmas below lose no behaviour by it.
   */
  predicate Defined(e: Event)
  {
    e.LoopCall? ==> |e.io.readValue| >= MacText.MAC_LENGTH
  }

  function Apply(g: Globals, e: Event): Globals
    requires Defined(e)
  {
    match e
    case ServerConnect => g.(bt := AfterConnect(g.bt))
    case ServerDisconnect => g.(bt := AfterDisconnect(g.bt))
    case ScanResult(device) =>
      var r := AfterResult(g.bt, g.client, device);
      g.(bt := r.0, client := r.1)
    case LoopCall(io) => LoopStep(g, io)
  }

  /** The globals after the events `es`, in order. */
  function Run(g: Globals, es: seq<Event>): Globals
    requires forall k :: 0 <= k < |es| ==> Defined(es[k])
    decreases |es|
  {
    if es == [] then g else Run(Apply(g, es[0]), es[1..])
  }

  /**
   * The error flag is monotone: after any sequence of events it is set
   * exactly when it was set before or a server disconnect occurred.
   */
  lemma {:induction false} RunErrorFlag(g: Globals, es: seq<Event>)
    requires forall k :: 0 <= k < |es| ==> Defined(es[k])
    ensures Run(g, es).bt.isError <==> g.bt.isError || ServerDisconnect in es
    decreases |es|
  {
    if es != [] {
      var g' := Apply(g, es[0]);
      assert g'.bt.isError <==> g.bt.isError || es[0] == ServerDisconnect;
      RunErrorFlag(g', es[1..]);
      assert es == [es[0]] + es[1..];
    }
  }

  /** Once the error flag is set, no sequence of `loop` calls changes anything. */
  lemma {:induction false} LoopsIdleAfterError(g: Globals, es: seq<Event>)
    requires g.bt.isError
    requires forall k :: 0 <= k < |es| ==> es[k].LoopCall? && Defined(es[k])
    ensures Run(g, es) == g
    decreases |es|
  {
    if es != [] {
      LoopIdleOnError(g, es[0].io);
      LoopsIdleAfterError(g, es[1..]);
    }
  }

  /**
   * Once `bt` is connected or in error, no callback and no `loop` call
   * brings it back to searching, so `server_mac_address` keeps its value
   * whatever events follow.
   */
  lemma {:induction false} NotSearchingKeepsAddress(g: Globals, es: seq<Event>)
    requires !Searching(g)
    requires forall k :: 0 <= k < |es| ==> Defined(es[k])
    ensures !Searching(Run(g, es))
    ensures Run(g, es).bt.serverMacAddress == g.bt.serverMacAddress
    decreases |es|
  {
    if es != [] {
      var g' := Apply(g, es[0]);
      assert !Searching(g') && g'.bt.serverMacAddress == g.bt.serverMacAddress;
      NotSearchingKeepsAddress(g', es[1..]);
    }
  }

  /**
   * `onResult` marks `bt` connected when it finds the server, so no later
   * `loop` call takes the connecting branch: `server_mac_address` keeps
   * whatever it held before the match, whatever the radio stack returns.
   */
  lemma {:induction false} MatchSkipsAddressExchange(g: Globals, device: AdvertisedDevice, es: seq<Event>)
    requires IsGameSword(device)
    requires forall k :: 0 <= k < |es| ==> es[k].LoopCall? && Defined(es[k])
    ensures Run(Apply(g, ScanResult(device)), es) == Apply(g, ScanResult(device))
    decreases |es|
  {
    var g' := Apply(g, ScanResult(device));
    if es != [] {
      LoopIdleWhenConnected(g', es[0].io);
      MatchSkipsAddressExchange(g, device, es[1..]);
    }
  }

  /**
   * A full exchange: `setup` at time 1000, then a `loop` call at 7000 in
   * which every radio call succeeds and the server sends AA BB CC DD EE FF,
   * leaves `bt` connected with "AA:BB:CC:DD:EE:FF" in `server_mac_address`.
   */
  lemma ExchangeExample()
    ensures var io := LoopInputs(true, 7000, true, Ptr(1), Ptr(2), [0xAA, 0xBB, 0xCC, 0xDD, 0xEE, 0xFF]);
      var b := LoopStep(Initial(1000), io).bt;
      b.isBtConnected && b.serverMacAddress[..MacText.MAC_TEXT_LENGTH] == "AA:BB:CC:DD:EE:FF"
  {
    var raw: seq<uint8> := [0xAA, 0xBB, 0xCC, 0xDD, 0xEE, 0xFF];
    var io := LoopInputs(true, 7000, true, Ptr(1), Ptr(2), raw);
    LoopSuccessStoresAddress(Initial(1000), io);
    assert raw[..MacText.MAC_LENGTH] == raw;
    MacText.FormatMacExample();
    assert MacText.FormatMac(raw) == "AA:BB:CC:DD:EE:FF";
  }

  /**
   * The 5 s wait is measured in uint32 time: a scan begun 4096 ms before
   * `millis()` wraps is done 904 ms after the wrap, although the counter
   * then reads less than `start`.
   */
  lemma WrappedClockEndsScan(g: Globals, io: LoopInputs)
    requires g.start == 0xFFFF_F000 && io.now == 0x388 && io.clientConnected
    ensures ScanDone(g, io)
  {
  }
}
