/**
 * The app's side of the bluetooth link to the rover: the connection state, the device
 * list a scan builds, command writes with their fallback, the keep-alive repeater, the
 * reconnect schedule and the routing of incoming notifications.
 *
 * Transport calls are replaced by their outcomes (`ok` flags), and timers by explicit
 * events: `ScanWindowEnd` (the 15 s scan window), `KeepAliveTick` (the repeater's
 * interval), `ReconnectFire` (the reconnect delay). `Render` is React committing a new
 * state: the reconnect effect's clean-up cancels the pending reconnect whenever the
 * state or the connected device changed.
 */
module BleLink {
  import opened Wrappers
  import opened WireCodec

  datatype ConnectionState = Idle | Scanning | Connecting | Connected | Reconnecting | Disconnected

  datatype LinkError = InitFailed | ScanFailed | NothingFound | ConnectFailed

  /** An entry of the device list: id, signal strength and display name. */
  datatype FoundDevice = FoundDevice(id: string, rssi: int, name: string)

  datatype KeepAlive = KeepAlive(command: Direction, intervalMs: int)

  datatype WriteOutcome = Sent | NotConnected | Failed

  /** The reconnect attempt waiting for its delay. */
  datatype PendingReconnect = PendingReconnect(device: string, delayMs: nat)

  // ---------------------------------------------------------------------------------
  // Scan results

  predicate UniqueIds(ds: seq<FoundDevice>) {
    forall i, j :: 0 <= i < j < |ds| ==> ds[i].id != ds[j].id
  }

  predicate HasId(ds: seq<FoundDevice>, id: string) {
    exists k :: 0 <= k < |ds| && ds[k].id == id
  }

  /** `localName || device.name || 'Unknown'`: the first non-empty name. */
  function DisplayName(localName: Option<string>, deviceName: Option<string>): (n: string)
    ensures n != []
    ensures localName.Some? && localName.value != [] ==> n == localName.value
    ensures n == "Unknown" || Some(n) == localName || Some(n) == deviceName
  {
    if localName.Some? && localName.value != [] then localName.value
    else if deviceName.Some? && deviceName.value != [] then deviceName.value
    else "Unknown"
  }

  /** The scan callback's update: a device whose id is already listed is ignored. */
  function AddDevice(ds: seq<FoundDevice>, d: FoundDevice): (r: seq<FoundDevice>)
    ensures UniqueIds(ds) ==> UniqueIds(r)
    ensures HasId(r, d.id)
    ensures forall id :: HasId(r, id) <==> HasId(ds, id) || id == d.id
    ensures |ds| <= |r| && r[..|ds|] == ds
  {
    if HasId(ds, d.id) then ds else
      var r := ds + [d];
      assert r[|ds|].id == d.id;
      r
  }

  /** The device list after the scan callback has seen `results` in order. */
  function ScanList(results: seq<FoundDevice>): seq<FoundDevice> {
    if results == [] then [] else AddDevice(ScanList(results[..|results| - 1]), results[|results| - 1])
  }

  /** `results[k]` is the first result carrying its id. */
  predicate FirstWithId(results: seq<FoundDevice>, k: nat)
    requires k < |results|
  {
    forall i :: 0 <= i < k ==> results[i].id != results[k].id
  }

  /**
   * The scan keeps exactly the first result per device: the list has no duplicate id,
   * every id seen is listed, and every entry is the first result with its id.
   */
  lemma {:induction false} ScanListFirstWins(results: seq<FoundDevice>)
    ensures UniqueIds(ScanList(results))
    ensures forall k :: 0 <= k < |results| ==> HasId(ScanList(results), results[k].id)
    ensures forall j :: 0 <= j < |ScanList(results)| ==>
              exists k :: 0 <= k < |results| && ScanList(results)[j] == results[k] && FirstWithId(results, k)
    decreases |results|
  {
    if results != [] {
      var init := results[..|results| - 1];
      var last := results[|results| - 1];
      var prev := ScanList(init);
      ScanListFirstWins(init);
      var r := ScanList(results);
      assert r == AddDevice(prev, last);
      forall k | 0 <= k < |results| ensures HasId(r, results[k].id) {
        if k < |results| - 1 {
          assert results[k] == init[k];
          assert HasId(prev, init[k].id);
        }
      }
      forall j | 0 <= j < |r|
        ensures exists k :: 0 <= k < |results| && r[j] == results[k] && FirstWithId(results, k)
      {
        if j < |prev| {
          assert r[j] == prev[j];
          var k :| 0 <= k < |init| && prev[j] == init[k] && FirstWithId(init, k);
          assert results[k] == init[k];
          assert FirstWithId(results, k) by {
            forall i | 0 <= i < k ensures results[i].id != results[k].id {
              assert results[i] == init[i];
            }
          }
        } else {
          assert !HasId(prev, last.id) && r[j] == last;
          assert FirstWithId(results, |results| - 1) by {
            forall i | 0 <= i < |results| - 1 ensures results[i].id != last.id {
              assert results[i] == init[i];
              assert HasId(prev, init[i].id);
            }
          }
        }
      }
    }
  }

  // ---------------------------------------------------------------------------------
  // Reconnect schedule

  /** `[1000, 2000, 5000, 10000][min(attempts, 3)]`. */
  function ReconnectDelay(attempts: nat): (ms: nat)
    ensures ms in {1000, 2000, 5000, 10000}
    ensures attempts >= 3 ==> ms == 10000
  {
    var delays := [1000, 2000, 5000, 10000];
    delays[if attempts < 3 then attempts else 3]
  }

  /** More attempts never mean a shorter wait. */
  lemma ReconnectDelayMonotone(a: nat, b: nat)
    requires a <= b
    ensures ReconnectDelay(a) <= ReconnectDelay(b)
  {
  }

  // ---------------------------------------------------------------------------------
  // The link

  class Link {
    var state: ConnectionState
    var devices: seq<FoundDevice>
    var connected: Option<string>
    var lastCommand: Direction
    var error: Option<LinkError>
    var reconnectAttempts: nat
    var reconnectTimer: Option<PendingReconnect>
    var keepAlive: Option<KeepAlive>
    var subs: Subscribers
    /** Whether scan results are being delivered. */
    var scanActive: bool
    /** Whether the end of the scan window is pending. */
    var scanWindowArmed: bool
    /** Payloads written to the rover, oldest first. */
    var sent: seq<string>
    /** The state and device of the last commit, which the reconnect effect depends on. */
    var renderedState: ConnectionState
    var renderedDevice: Option<string>

    /**
     * Connection bookkeeping: `disconnected` and `connected` agree with the device slot,
     * a reconnect has a device to go to, and the device list never repeats an id.
     */
    ghost predicate Valid()
      reads this
    {
      (state == Disconnected ==> connected.None?) &&
      (state == Connected ==> connected.Some?) &&
      (state == Reconnecting ==> connected.Some?) &&
      UniqueIds(devices)
    }

    /** The reconnect effect's condition for starting an attempt. */
    predicate ReconnectGuard()
      reads this
    {
      state == Disconnected && connected.Some?
    }

    constructor ()
      ensures Valid()
      ensures state == Idle && devices == [] && connected.None? && lastCommand == S && error.None?
      ensures reconnectAttempts == 0 && reconnectTimer.None? && keepAlive.None?
      ensures !scanActive && !scanWindowArmed && sent == []
      ensures renderedState == Idle && renderedDevice.None?
      ensures subs == Subscribers(false, false, false, false, false, false, false)
    {
      state := Idle;
      devices := [];
      connected := None;
      lastCommand := S;
      error := None;
      reconnectAttempts := 0;
      reconnectTimer := None;
      keepAlive := None;
      subs := Subscribers(false, false, false, false, false, false, false);
      scanActive := false;
      scanWindowArmed := false;
      sent := [];
      renderedState := Idle;
      renderedDevice := None;
    }

    /**
     * A commit of the current state: when the state or the device changed since the last
     * one, the effect's clean-up cancels the pending reconnect. Its guard never holds,
     * so it never starts an attempt of its own.
     */
    method Render()
      requires Valid()
      modifies this
      ensures Valid()
      ensures !ReconnectGuard()
      ensures (old(state) != old(renderedState) || old(connected) != old(renderedDevice)) ==> reconnectTimer.None?
      ensures (old(state) == old(renderedState) && old(connected) == old(renderedDevice)) ==> unchanged(this)
      ensures renderedState == state && renderedDevice == connected
      ensures state == old(state) && connected == old(connected) && reconnectAttempts == old(reconnectAttempts)
      ensures sent == old(sent) && keepAlive == old(keepAlive) && devices == old(devices)
    {
      if state != renderedState || connected != renderedDevice {
        reconnectTimer := None;
        renderedState := state;
        renderedDevice := connected;
      }
    }

    /** Registers the callbacks the next notifications are delivered to. */
    method SetSubscribers(s: Subscribers)
      requires Valid()
      modifies this
      ensures Valid() && subs == s
      ensures state == old(state) && connected == old(connected) && sent == old(sent)
      ensures lastCommand == old(lastCommand) && keepAlive == old(keepAlive) && devices == old(devices)
    {
      subs := s;
    }

    /**
     * `scanForDevices`: the list is emptied and the state becomes `scanning`. A failed
     * initialisation or a failed scan start ends in `idle` with the error; otherwise
     * results are delivered and the window's end is armed.
     */
    method Scan(initOk: bool, scanOk: bool)
      requires Valid()
      modifies this
      ensures Valid()
      ensures devices == []
      ensures !initOk ==> state == Idle && error == Some(InitFailed) && scanActive == old(scanActive) &&
                          scanWindowArmed == old(scanWindowArmed)
      ensures initOk && !scanOk ==> state == Idle && error == Some(ScanFailed) && scanActive == old(scanActive) &&
                                    scanWindowArmed == old(scanWindowArmed)
      ensures initOk && scanOk ==> state == Scanning && error.None? && scanActive && scanWindowArmed
      ensures connected == old(connected) && sent == old(sent) && keepAlive == old(keepAlive)
      ensures lastCommand == old(lastCommand) && reconnectAttempts == old(reconnectAttempts)
    {
      state := Scanning;
      devices := [];
      error := None;
      if !initOk {
        error := Some(InitFailed);
        state := Idle;
        return;
      }
      if !scanOk {
        error := Some(ScanFailed);
        state := Idle;
        return;
      }
      scanActive := true;
      scanWindowArmed := true;
    }

    /**
     * One scan result: listed unless its id already is, with a missing or zero signal
     * strength read as 0 and the first non-empty name.
     */
    method ScanResult(id: string, rssi: Option<int>, localName: Option<string>, deviceName: Option<string>)
      requires Valid()
      modifies this
      ensures Valid()
      ensures scanActive ==> devices == AddDevice(old(devices), FoundDevice(id, rssi.GetOr(0), DisplayName(localName, deviceName)))
      ensures !scanActive ==> devices == old(devices)
      ensures state == old(state) && connected == old(connected) && error == old(error)
      ensures sent == old(sent) && keepAlive == old(keepAlive) && lastCommand == old(lastCommand)
      ensures scanActive == old(scanActive) && scanWindowArmed == old(scanWindowArmed)
    {
      if scanActive {
        devices := AddDevice(devices, FoundDevice(id, rssi.GetOr(0), DisplayName(localName, deviceName)));
      }
    }

    /**
     * The end of the scan window: the scan is stopped; with nothing found that is an
     * error, and the state becomes `idle` whatever it was by then, even `connected`. A
     * failing stop aborts the callback before any of that.
     */
    method ScanWindowEnd(stopOk: bool)
      requires Valid()
      modifies this
      ensures Valid()
      ensures old(scanWindowArmed) && stopOk ==>
                state == Idle && !scanActive && !scanWindowArmed &&
                error == (if old(devices) == [] then Some(NothingFound) else old(error))
      ensures old(scanWindowArmed) && !stopOk ==>
                state == old(state) && scanActive == old(scanActive) && !scanWindowArmed && error == old(error)
      ensures !old(scanWindowArmed) ==> unchanged(this)
      ensures connected == old(connected) && devices == old(devices) && sent == old(sent)
      ensures keepAlive == old(keepAlive) && lastCommand == old(lastCommand)
    {
      if !scanWindowArmed {
        return;
      }
      scanWindowArmed := false;
      if !stopOk {
        return;
      }
      scanActive := false;
      if devices == [] {
        error := Some(NothingFound);
      }
      state := Idle;
    }

    /**
     * `connect`: `connecting` with the error cleared, then either `connected` to the
     * device with the attempt counter reset, or `idle` with the error. It never throws.
     */
    method Connect(device: string, ok: bool)
      requires Valid()
      modifies this
      ensures Valid()
      ensures ok ==> state == Connected && connected == Some(device) && error.None? && reconnectAttempts == 0
      ensures !ok ==> state == Idle && connected == old(connected) && error == Some(ConnectFailed) &&
                      reconnectAttempts == old(reconnectAttempts)
      ensures devices == old(devices) && sent == old(sent) && keepAlive == old(keepAlive)
      ensures lastCommand == old(lastCommand) && reconnectTimer == old(reconnectTimer)
      ensures scanActive == old(scanActive) && scanWindowArmed == old(scanWindowArmed)
    {
      state := Connecting;
      error := None;
      if !ok {
        error := Some(ConnectFailed);
        state := Idle;
        return;
      }
      connected := Some(device);
      state := Connected;
      reconnectAttempts := 0;
    }

    /** The transport's disconnect callback: no device, `disconnected`, attempts reset. */
    method TransportDisconnected()
      requires Valid()
      modifies this
      ensures Valid()
      ensures state == Disconnected && connected.None? && reconnectAttempts == 0
      ensures !ReconnectGuard()
      ensures devices == old(devices) && sent == old(sent) && keepAlive == old(keepAlive)
      ensures lastCommand == old(lastCommand) && error == old(error) && reconnectTimer == old(reconnectTimer)
    {
      connected := None;
      state := Disconnected;
      reconnectAttempts := 0;
    }

    /**
     * `writeCommand`: refused without a device. The payload is the framed command; it is
     * written without response, or with response when that fails, and the last command
     * follows only a direction letter. When both writes fail nothing changes.
     */
    method Write(cmd: string, primaryOk: bool, fallbackOk: bool) returns (outcome: WriteOutcome)
      requires Valid()
      modifies this
      ensures Valid()
      ensures old(connected).None? ==> outcome == NotConnected
      ensures old(connected).Some? && (primaryOk || fallbackOk) ==> outcome == Sent
      ensures old(connected).Some? && !primaryOk && !fallbackOk ==> outcome == Failed
      ensures outcome == Sent ==> sent == old(sent) + [FrameCommand(cmd)] &&
                                  lastCommand == DirectionOf(cmd).GetOr(old(lastCommand))
      ensures outcome != Sent ==> unchanged(this)
      ensures state == old(state) && connected == old(connected) && keepAlive == old(keepAlive)
      ensures devices == old(devices) && error == old(error) && reconnectTimer == old(reconnectTimer)
      ensures reconnectAttempts == old(reconnectAttempts) && subs == old(subs)
      ensures scanActive == old(scanActive) && scanWindowArmed == old(scanWindowArmed)
      ensures renderedState == old(renderedState) && renderedDevice == old(renderedDevice)
    {
      if connected.None? {
        return NotConnected;
      }
      var payload := FrameCommand(cmd);
      if !primaryOk && !fallbackOk {
        return Failed;
      }
      sent := sent + [payload];
      var d := DirectionOf(cmd);
      if d.Some? {
        lastCommand := d.value;
      }
      return Sent;
    }

    /**
     * `startKeepAlive`: any running repeater is replaced; the command is written once
     * at once (a failure of that write is not observed) and then repeated every
     * `intervalMs`.
     */
    method StartKeepAlive(cmd: Direction, intervalMs: int, primaryOk: bool, fallbackOk: bool)
      requires Valid()
      modifies this
      ensures Valid()
      ensures keepAlive == Some(KeepAlive(cmd, intervalMs))
      ensures old(connected).Some? && (primaryOk || fallbackOk) ==> sent == old(sent) + [DirectionText(cmd)]
      ensures !(old(connected).Some? && (primaryOk || fallbackOk)) ==> sent == old(sent)
      ensures lastCommand == (if old(connected).Some? && (primaryOk || fallbackOk) then cmd else old(lastCommand))
      ensures state == old(state) && connected == old(connected) && devices == old(devices)
      ensures error == old(error) && reconnectTimer == old(reconnectTimer)
      ensures reconnectAttempts == old(reconnectAttempts) && subs == old(subs)
      ensures scanActive == old(scanActive) && scanWindowArmed == old(scanWindowArmed)
      ensures renderedState == old(renderedState) && renderedDevice == old(renderedDevice)
    {
      keepAlive := None;
      var _ := Write(DirectionText(cmd), primaryOk, fallbackOk);
      keepAlive := Some(KeepAlive(cmd, intervalMs));
    }

    /** One interval of the repeater: the command is written again. */
    method KeepAliveTick(primaryOk: bool, fallbackOk: bool)
      requires Valid()
      modifies this
      ensures Valid()
      ensures old(keepAlive).Some? && old(connected).Some? && (primaryOk || fallbackOk) ==>
                sent == old(sent) + [DirectionText(old(keepAlive).value.command)]
      ensures !(old(keepAlive).Some? && old(connected).Some? && (primaryOk || fallbackOk)) ==> sent == old(sent)
      ensures lastCommand == (if old(keepAlive).Some? && old(connected).Some? && (primaryOk || fallbackOk)
                              then old(keepAlive).value.command else old(lastCommand))
      ensures keepAlive == old(keepAlive) && state == old(state) && connected == old(connected)
      ensures devices == old(devices) && error == old(error) && reconnectTimer == old(reconnectTimer)
      ensures reconnectAttempts == old(reconnectAttempts) && subs == old(subs)
      ensures scanActive == old(scanActive) && scanWindowArmed == old(scanWindowArmed)
      ensures renderedState == old(renderedState) && renderedDevice == old(renderedDevice)
    {
      if keepAlive.Some? {
        var _ := Write(DirectionText(keepAlive.value.command), primaryOk, fallbackOk);
      }
    }

    /** `stopKeepAlive`: only a running repeater is stopped, and only then is one `S` written. */
    method StopKeepAlive(primaryOk: bool, fallbackOk: bool)
      requires Valid()
      modifies this
      ensures Valid()
      ensures keepAlive.None?
      ensures old(keepAlive).Some? && old(connected).Some? && (primaryOk || fallbackOk) ==>
                sent == old(sent) + ["S"] && lastCommand == S
      ensures !(old(keepAlive).Some? && old(connected).Some? && (primaryOk || fallbackOk)) ==>
                sent == old(sent) && lastCommand == old(lastCommand)
      ensures state == old(state) && connected == old(connected) && devices == old(devices)
      ensures error == old(error) && reconnectTimer == old(reconnectTimer)
      ensures reconnectAttempts == old(reconnectAttempts) && subs == old(subs)
      ensures scanActive == old(scanActive) && scanWindowArmed == old(scanWindowArmed)
      ensures renderedState == old(renderedState) && renderedDevice == old(renderedDevice)
    {
      if keepAlive.Some? {
        keepAlive := None;
        var _ := Write("S", primaryOk, fallbackOk);
      }
    }

    /**
     * Unmounting the hook runs the effects' cleanups: the repeater and any pending
     * reconnect are cleared, and nothing is written.
     */
    method Unmount()
      requires Valid()
      modifies this
      ensures Valid()
      ensures keepAlive.None? && reconnectTimer.None?
      ensures state == old(state) && connected == old(connected) && sent == old(sent)
      ensures devices == old(devices) && lastCommand == old(lastCommand) && error == old(error)
      ensures reconnectAttempts == old(reconnectAttempts)
    {
      keepAlive := None;
      reconnectTimer := None;
    }

    /**
     * `disconnect`: with a device, `S` is written first; if that write or the transport
     * disconnect fails, the error is only logged and nothing else changes. Otherwise the
     * device is forgotten and the state is `idle`.
     */
    method Disconnect(primaryOk: bool, fallbackOk: bool, disconnectOk: bool)
      requires Valid()
      modifies this
      ensures Valid()
      ensures old(connected).None? ==> unchanged(this)
      ensures old(connected).Some? && (primaryOk || fallbackOk) ==> sent == old(sent) + ["S"] && lastCommand == S
      ensures old(connected).Some? && (primaryOk || fallbackOk) && disconnectOk ==>
                connected.None? && state == Idle
      ensures !(old(connected).Some? && (primaryOk || fallbackOk) && disconnectOk) ==>
                connected == old(connected) && state == old(state)
      ensures keepAlive == old(keepAlive) && devices == old(devices) && error == old(error)
    {
      if connected.None? {
        return;
      }
      var outcome := Write("S", primaryOk, fallbackOk);
      if outcome != Sent || !disconnectOk {
        return;
      }
      connected := None;
      state := Idle;
    }

    /**
     * `attemptReconnect`: nothing without a device or while reconnecting or connected.
     * Otherwise the state becomes `reconnecting` and a connect is scheduled after the
     * delay for the current attempt count.
     */
    method AttemptReconnect()
      requires Valid()
      modifies this
      ensures Valid()
      ensures old(connected).None? || old(state) == Reconnecting || old(state) == Connected ==> unchanged(this)
      ensures old(connected).Some? && old(state) != Reconnecting && old(state) != Connected ==>
                state == Reconnecting &&
                reconnectTimer == Some(PendingReconnect(old(connected).value, ReconnectDelay(old(reconnectAttempts))))
      ensures connected == old(connected) && reconnectAttempts == old(reconnectAttempts)
      ensures sent == old(sent) && devices == old(devices) && keepAlive == old(keepAlive)
    {
      if connected.None? || state == Reconnecting || state == Connected {
        return;
      }
      var delay := ReconnectDelay(reconnectAttempts);
      state := Reconnecting;
      reconnectTimer := Some(PendingReconnect(connected.value, delay));
    }

    /**
     * The reconnect delay elapses: `connect` is called for the remembered device. It never
     * throws, so the attempt counter is reset whether or not the connection came up, and
     * no further attempt is scheduled.
     */
    method ReconnectFire(ok: bool)
      requires Valid()
      modifies this
      ensures Valid()
      ensures old(reconnectTimer).Some? ==>
                reconnectTimer.None? && reconnectAttempts == 0 &&
                (ok ==> state == Connected && connected == Some(old(reconnectTimer).value.device)) &&
                (!ok ==> state == Idle && error == Some(ConnectFailed))
      ensures old(reconnectTimer).None? ==> unchanged(this)
      ensures sent == old(sent) && devices == old(devices) && keepAlive == old(keepAlive)
    {
      if reconnectTimer.None? {
        return;
      }
      var device := reconnectTimer.value.device;
      reconnectTimer := None;
      Connect(device, ok);
      reconnectAttempts := 0;
    }

    /**
     * A notification: routed to the registered callbacks, and a direction echo becomes
     * the last command.
     */
    method Notify(b: seq<byte>) returns (d: Dispatch)
      requires Valid()
      modifies this
      ensures Valid()
      ensures d == Route(b, subs)
      ensures lastCommand == d.echo.GetOr(old(lastCommand))
      ensures state == old(state) && connected == old(connected) && sent == old(sent)
      ensures devices == old(devices) && keepAlive == old(keepAlive) && error == old(error)
      ensures subs == old(subs)
    {
      d := Route(b, subs);
      if d.echo.Some? {
        lastCommand := d.echo.value;
      }
    }
  }
}
