/** lib/wifi.js: the function-style API over an interface.  Its
    `findNetworkBySSID` and `addOrUpdateNetwork` are the ones in
    `Reconciler`; what it has of its own is a three-way state in which an
    access point takes priority, and the mode derived from it. */
module Wifi {
  import opened Common
  import opened Js
  import opened Supplicant
  import opened Wpa
  import Utils
  import W = Wireless

  datatype WifiState = AccessPoint | Connected | Disconnected

  /** `wifi.state(iface)`, given the status record. */
  function State(status: StatusRecord): WifiState {
    var state := Utils.ToLower(W.StatusField(status, "wpa_state"));
    if state == Str("disconnected") && Truthy(W.StatusField(status, "ip_address")) then AccessPoint
    else if state == Str("connected") || state == Str("completed") then Connected
    else Disconnected
  }

  /** `wifi.mode(iface)`: `ap` exactly when the state is `ap`. */
  function ModeOf(status: StatusRecord): (m: W.Mode)
    ensures m == W.AccessPoint <==> State(status) == AccessPoint
  {
    if State(status) == AccessPoint then W.AccessPoint else W.Station
  }

  /** The three-way state refines the two readings of lib/wireless.js: it
      is `ap` exactly when that mode is `ap`, and `connected` exactly when
      that state is `connected`. */
  lemma StateRefines(status: StatusRecord)
    ensures State(status) == AccessPoint <==> W.ModeOf(status) == W.AccessPoint
    ensures State(status) == Connected <==> W.State(status) == W.Connected
  {
    W.AccessPointDisconnected(status);
  }

  /** Both libraries agree on the mode. */
  lemma ModeAgrees(status: StatusRecord)
    ensures ModeOf(status) == W.ModeOf(status)
  {
    StateRefines(status);
  }

  /** `wifi.state(iface)`: one `status` command on the interface's client. */
  method GetState(c: Client) returns (r: Result<WifiState, Failure>)
    modifies c
    ensures c.sent == old(c.sent) + [CommandLine(c.iface, "status", [])] && c.daemon == old(c.daemon)
    ensures var out := Reply(CommandLine(c.iface, "status", []), Output(old(c.daemon), "status", []));
      r == if out.Err? then Err(out.error) else Ok(State(StatusOf(Lines(out.value))))
  {
    var status := c.Status();
    if status.Err? {
      return Err(status.error);
    }
    r := Ok(State(status.value));
  }

  /** `wifi.mode(iface)`. */
  method GetMode(c: Client) returns (r: Result<W.Mode, Failure>)
    modifies c
    ensures c.sent == old(c.sent) + [CommandLine(c.iface, "status", [])] && c.daemon == old(c.daemon)
    ensures var out := Reply(CommandLine(c.iface, "status", []), Output(old(c.daemon), "status", []));
      r == if out.Err? then Err(out.error) else Ok(ModeOf(StatusOf(Lines(out.value))))
  {
    var state := GetState(c);
    if state.Err? {
      return Err(state.error);
    }
    r := Ok(if state.value == AccessPoint then W.AccessPoint else W.Station);
  }
}
