/** lib/wireless.js: the `Wireless` class over one `WPA` client — the
    connection state and mode read from `status`, the by-ssid network
    commands, `addOrUpdateNetwork`, and the classifier `detect` applies to
    the output of `lsusb` and `iwconfig`. */
module Wireless {
  import opened Common
  import opened Text
  import opened Js
  import opened Utils
  import opened Supplicant
  import opened Wpa
  import opened Reconciler

  // ---------------------------------------------------------------- state and mode

  datatype Connection = Connected | Disconnected
  datatype Mode = Station | AccessPoint

  /** `status[key]`: a missing key, or a line without `=`, reads as `undefined`. */
  function StatusField(status: StatusRecord, key: string): (v: Val)
    ensures v.Str? <==> key in status && status[key].Some?
    ensures v.Str? ==> v.s == status[key].value
    ensures !v.Str? ==> v == Undefined
  {
    if key in status && status[key].Some? then Str(status[key].value) else Undefined
  }

  /** `s` spells the lower-case word `w` in any mix of cases. */
  predicate SpellsIgnoringCase(s: string, w: string) {
    |s| == |w| && forall i :: 0 <= i < |s| ==> LowerChar(s[i]) == w[i]
  }

  /** The record's `wpa_state` is `w`, ignoring case. */
  predicate StateIs(status: StatusRecord, w: string) {
    StatusField(status, "wpa_state").Str? && SpellsIgnoringCase(StatusField(status, "wpa_state").s, w)
  }

  /** `toLower(status[key]) === w` for a lower-case word `w`. */
  lemma LowerFieldIs(status: StatusRecord, key: string, w: string)
    requires NoUpper(w) && w != ""
    ensures ToLower(StatusField(status, key)) == Str(w) <==>
      StatusField(status, key).Str? && SpellsIgnoringCase(StatusField(status, key).s, w)
  {
    if StatusField(status, key).Str? {
      ToLowerMatches(StatusField(status, key).s, w);
    }
  }

  /** `state()`, given the status record. */
  function State(status: StatusRecord): Connection {
    var state := ToLower(StatusField(status, "wpa_state"));
    if state == Str("connected") || state == Str("completed") then Connected else Disconnected
  }

  /** The state is `connected` exactly when `wpa_state` is `connected` or
      `completed` in any mix of cases. */
  lemma StateSpec(status: StatusRecord)
    ensures State(status) == Connected <==> StateIs(status, "connected") || StateIs(status, "completed")
  {
    LowerFieldIs(status, "wpa_state", "connected");
    LowerFieldIs(status, "wpa_state", "completed");
  }

  /** `mode()`, given the status record. */
  function ModeOf(status: StatusRecord): Mode {
    if ToLower(StatusField(status, "wpa_state")) == Str("disconnected") && Truthy(StatusField(status, "ip_address"))
    then AccessPoint else Station
  }

  /** The mode is `ap` exactly when `wpa_state` is `disconnected` in any mix
      of cases and the record carries a non-empty `ip_address`. */
  lemma ModeSpec(status: StatusRecord)
    ensures ModeOf(status) == AccessPoint <==>
      && StateIs(status, "disconnected")
      && "ip_address" in status && status["ip_address"].Some? && status["ip_address"].value != ""
  {
    LowerFieldIs(status, "wpa_state", "disconnected");
  }

  /** An access point is never connected. */
  lemma AccessPointDisconnected(status: StatusRecord)
    ensures ModeOf(status) == AccessPoint ==> State(status) == Disconnected
  {
    StateSpec(status);
    ModeSpec(status);
    if ModeOf(status) == AccessPoint {
      var s := StatusField(status, "wpa_state").s;
      assert LowerChar(s[0]) == 'd';
    }
  }

  // ---------------------------------------------------------------- detect

  /** `check(result)`: which kind of wireless device a command's output shows. */
  function Check(stdout: string): Option<string> {
    if Contains(stdout, "802.11") then Some("802.11")
    else if Contains(Upper(stdout), "WLAN") then Some("WLAN")
    else None
  }

  /** `802.11` wins wherever it occurs; otherwise `WLAN` in any case is
      reported; otherwise nothing. */
  lemma CheckSpec(stdout: string)
    ensures Check(stdout) == Some("802.11") <==> OccursIn("802.11", stdout)
    ensures Check(stdout) == Some("WLAN") <==> !OccursIn("802.11", stdout) && OccursIn("WLAN", Upper(stdout))
    ensures Check(stdout).None? <==> !OccursIn("802.11", stdout) && !OccursIn("WLAN", Upper(stdout))
  {
    ContainsOccurs(stdout, "802.11");
    ContainsOccurs(Upper(stdout), "WLAN");
  }

  /** An output that a command produced and that shows a device. */
  predicate Shows(output: Option<string>) {
    output.Some? && Check(output.value).Some?
  }

  /** The device the first command shows, trying the outputs in order; a
      command that failed (`None`) is skipped. */
  function FirstDetected(outputs: seq<Option<string>>): Option<string> {
    if outputs == [] then None
    else if Shows(outputs[0]) then Check(outputs[0].value)
    else FirstDetected(outputs[1..])
  }

  /** A device is detected exactly when some output shows one, and it is
      the one the earliest such output shows. */
  lemma {:induction false} FirstDetectedSpec(outputs: seq<Option<string>>)
    ensures FirstDetected(outputs).Some? <==> exists i :: 0 <= i < |outputs| && Shows(outputs[i])
    ensures FirstDetected(outputs).Some? ==>
      exists i :: 0 <= i < |outputs| && Shows(outputs[i]) && Check(outputs[i].value) == FirstDetected(outputs)
        && forall j :: 0 <= j < i ==> !Shows(outputs[j])
  {
    if outputs != [] && !Shows(outputs[0]) {
      var rest := outputs[1..];
      FirstDetectedSpec(rest);
      if exists i :: 0 <= i < |outputs| && Shows(outputs[i]) {
        var i :| 0 <= i < |outputs| && Shows(outputs[i]);
        assert rest[i - 1] == outputs[i];
      }
      if FirstDetected(outputs).Some? {
        var i :| 0 <= i < |rest| && Shows(rest[i]) && Check(rest[i].value) == FirstDetected(outputs)
          && forall j :: 0 <= j < i ==> !Shows(rest[j]);
        assert outputs[i + 1] == rest[i];
        forall j | 0 <= j < i + 1
          ensures !Shows(outputs[j])
        {
          if j > 0 {
            assert outputs[j] == rest[j - 1];
          }
        }
      }
    }
  }

  /** `detect()`'s `next` loop over the outputs of the available commands
      (`None` for a command that failed): the first device found, or none. */
  method Detect(outputs: seq<Option<string>>) returns (device: Option<string>)
    ensures device == FirstDetected(outputs)
  {
    var index := 0;
    while index < |outputs|
      invariant 0 <= index <= |outputs|
      invariant FirstDetected(outputs) == FirstDetected(outputs[index..])
    {
      assert outputs[index..][1..] == outputs[index + 1..];
      var output := outputs[index];
      index := index + 1;
      if output.Some? {
        var found := Check(output.value);
        if found.Some? {
          return found;
        }
      }
    }
    device := None;
  }

  // ---------------------------------------------------------------- by-ssid commands

  /** The first listed network with the ssid, if the listing succeeded. */
  function Found(l: Run, ssid: string): Option<NetworkRow> {
    if l.result.Err? then None else FindBySsid(ParseNetworkList(l.result.value), ssid)
  }

  /** `findNetworkBySsid(ssid).then(n => n && <cmd>(n.id))`, against `d`. */
  function OnNamed(d: Daemon, iface: string, ssid: string, cmd: string): Run {
    var l := Listing(d, iface);
    var f := Found(l, ssid);
    if f.None? then l else Then(l, iface, cmd, [f.value.id])
  }

  /** Its outcome: the failure, no command (`None`), or the command's reply. */
  function OnNamedResult(d: Daemon, iface: string, ssid: string, cmd: string): Result<Option<string>, Failure> {
    var run := OnNamed(d, iface, ssid, cmd);
    if run.result.Err? then Err(run.result.error)
    else if Found(Listing(d, iface), ssid).None? then Ok(None)
    else Ok(Some(run.result.value))
  }

  /** Against a daemon whose names are table cells, a successful listing is
      followed by no command when no network has the name, and otherwise by
      exactly one, naming the first network with it. */
  lemma OnNamedSent(d: Daemon, iface: string, ssid: string, cmd: string)
    requires forall i :: 0 <= i < |d.networks| ==> Cell(d.networks[i].ssid)
    requires Listing(d, iface).result.Ok?
    ensures CountSsid(d.networks, ssid) == 0 ==>
      OnNamed(d, iface, ssid, cmd).sent == [CommandLine(iface, "list_networks", [])]
      && OnNamed(d, iface, ssid, cmd).daemon == d
      && OnNamedResult(d, iface, ssid, cmd) == Ok(None)
    ensures CountSsid(d.networks, ssid) > 0 ==>
      Existing(d, iface, ssid).Some? &&
      var k := Existing(d, iface, ssid).value;
      && k < |d.networks| && d.networks[k].ssid == ssid
      && (forall i :: 0 <= i < k ==> d.networks[i].ssid != ssid)
      && OnNamed(d, iface, ssid, cmd).sent ==
           [CommandLine(iface, "list_networks", []), CommandLine(iface, cmd, [NatToString(d.networks[k].id)])]
  {
    var l := Listing(d, iface);
    var rows := ParseNetworkList(l.result.value);
    assert l.daemon == d && rows == RowsOf(d.networks) by { ListingRows(d, iface); }
    assert l.sent == [CommandLine(iface, "list_networks", [])];
    ExistingSpec(d, iface, ssid);
    if CountSsid(d.networks, ssid) > 0 {
      var k := Existing(d, iface, ssid).value;
      assert Found(l, ssid) == Some(rows[k]);
      assert rows[k].id == NatToString(d.networks[k].id);
    } else {
      assert Found(l, ssid).None?;
    }
  }

  /** `remove_network` with a network's printed id takes that network out. */
  lemma RemoveById(d: Daemon, k: nat)
    requires Valid(d) && k < |d.networks| && "remove_network" !in d.refused
    ensures Next(d, "remove_network", [NatToString(d.networks[k].id)]).networks == d.networks[..k] + d.networks[k + 1..]
  {
    HeardId(d.networks[k].id);
    TargetOfId(d, k, [NatToString(d.networks[k].id)]);
  }

  /** Removing by name on a valid daemon whose names are table cells: when
      it succeeds, one network fewer carries the name if any did, and the
      table is unchanged if none did. */
  lemma RemoveNamedCount(d: Daemon, iface: string, ssid: string)
    requires Valid(d)
    requires forall i :: 0 <= i < |d.networks| ==> Cell(d.networks[i].ssid)
    ensures var run := OnNamed(d, iface, ssid, "remove_network");
      run.result.Ok? ==>
        CountSsid(run.daemon.networks, ssid) == if CountSsid(d.networks, ssid) > 0 then CountSsid(d.networks, ssid) - 1 else 0
  {
    var run := OnNamed(d, iface, ssid, "remove_network");
    var l := Listing(d, iface);
    assert l.daemon == d by { ListOutput(d); }
    if l.result.Ok? && run.result.Ok? {
      OnNamedSent(d, iface, ssid, "remove_network");
      if CountSsid(d.networks, ssid) > 0 {
        var k := Existing(d, iface, ssid).value;
        assert Found(l, ssid) == Some(RowOf(d.networks[k])) by {
          ListingRows(d, iface);
          assert Existing(d, iface, ssid) == FirstWithSsid(RowsOf(d.networks), ssid);
        }
        assert run == Then(l, iface, "remove_network", [NatToString(d.networks[k].id)]);
        RemoveStep(l, iface, k, ssid);
      } else {
        assert run == l;
      }
    }
  }

  /** A successful `remove_network` on a network's printed id takes that
      network, and its name, out of the count. */
  lemma RemoveStep(l: Run, iface: string, k: nat, ssid: string)
    requires Valid(l.daemon) && l.result.Ok? && k < |l.daemon.networks|
    ensures var d := l.daemon;
      var run := Then(l, iface, "remove_network", [NatToString(d.networks[k].id)]);
      run.result.Ok? ==>
        CountSsid(run.daemon.networks, ssid) == CountSsid(d.networks, ssid) - (if d.networks[k].ssid == ssid then 1 else 0)
  {
    var d := l.daemon;
    var run := Then(l, iface, "remove_network", [NatToString(d.networks[k].id)]);
    if run.result.Ok? {
      assert "remove_network" !in d.refused by {
        assert Trimmed("FAIL");
        TrimOfTrimmed("FAIL");
      }
      assert run.daemon.networks == d.networks[..k] + d.networks[k + 1..] by { RemoveById(d, k); }
      CountRemove(d.networks, k, ssid);
    }
  }

  /** As written: for a name with a blank at either end the lookup finds
      nothing, so the listing is all that is sent and the daemon is left as
      it was; removing `" x"` by name leaves a stored `" x"` in place. */
  lemma PaddedUntouched(d: Daemon, iface: string, ssid: string, cmd: string)
    requires !Trimmed(ssid)
    ensures OnNamed(d, iface, ssid, cmd).daemon == d
    ensures OnNamed(d, iface, ssid, cmd).sent == [CommandLine(iface, "list_networks", [])]
    ensures OnNamed(d, iface, ssid, cmd).result.Ok? ==> OnNamedResult(d, iface, ssid, cmd) == Ok(None)
  {
    ListingIs(d, iface);
    PaddedNotFound(d, iface, ssid);
  }

  /** The corrected by-name command: the listed names are compared with the
      trimmed ssid. */
  function OnNamedTrimmed(d: Daemon, iface: string, ssid: string, cmd: string): Run {
    OnNamed(d, iface, Trim(ssid), cmd)
  }

  /** The corrected remove-by-name, on a valid daemon whose names hold no
      tab or line break: when it succeeds, one network fewer is shown under
      the trimmed name if any was, and the count is unchanged if none was. */
  lemma RemoveTrimmedCount(d: Daemon, iface: string, ssid: string)
    requires Valid(d)
    requires forall i :: 0 <= i < |d.networks| ==> Avoids(d.networks[i].ssid, {'\t', '\n'})
    ensures var run := OnNamedTrimmed(d, iface, ssid, "remove_network");
      var key := Trim(ssid);
      var before := CountSsid(Shown(d.networks), key);
      run.result.Ok? ==>
        CountSsid(Shown(run.daemon.networks), key) == if before > 0 then before - 1 else 0
  {
    var key := Trim(ssid);
    var run := OnNamedTrimmed(d, iface, ssid, "remove_network");
    var l := Listing(d, iface);
    assert l.daemon == d by { ListOutput(d); }
    if l.result.Ok? && run.result.Ok? {
      ShownSpec(d, iface, key);
      ListingListed(d, iface);
      var rows := ParseNetworkList(l.result.value);
      var shown := Shown(d.networks);
      if CountSsid(shown, key) > 0 {
        var k := Existing(d, iface, key).value;
        assert rows[k] == ListedRow(d.networks[k]);
        assert Found(l, key) == Some(rows[k]);
        assert run == Then(l, iface, "remove_network", [NatToString(d.networks[k].id)]);
        RemoveShownStep(l, iface, k, key);
      } else {
        assert Found(l, key).None?;
        assert run == l;
      }
    }
  }

  /** A successful `remove_network` on a network's printed id takes that
      network out of the count of names as the listing shows them. */
  lemma RemoveShownStep(l: Run, iface: string, k: nat, key: string)
    requires Valid(l.daemon) && l.result.Ok? && k < |l.daemon.networks|
    ensures var d := l.daemon;
      var run := Then(l, iface, "remove_network", [NatToString(d.networks[k].id)]);
      run.result.Ok? ==>
        CountSsid(Shown(run.daemon.networks), key) == CountSsid(Shown(d.networks), key) - (if Trim(d.networks[k].ssid) == key then 1 else 0)
  {
    var d := l.daemon;
    var run := Then(l, iface, "remove_network", [NatToString(d.networks[k].id)]);
    if run.result.Ok? {
      assert "remove_network" !in d.refused by {
        assert Trimmed("FAIL");
        TrimOfTrimmed("FAIL");
      }
      var after := d.networks[..k] + d.networks[k + 1..];
      assert run.daemon.networks == after by { RemoveById(d, k); }
      var shown := Shown(d.networks);
      assert Shown(after) == shown[..k] + shown[k + 1..];
      CountRemove(shown, k, key);
    }
  }

  // ---------------------------------------------------------------- the class

  /** A `Wireless` instance: its interface and the `WPA` client it drives. */
  class Wireless {
    const iface: string
    const wpa: Client

    /** `new Wireless(iface)`: `wlan0` by default, with a client on the same
        interface. */
    constructor (iface: string, daemon: Daemon)
      ensures this.iface == (if iface == "" then "wlan0" else iface)
      ensures wpa.iface == this.iface && wpa.daemon == daemon && wpa.sent == []
      ensures fresh(wpa)
    {
      var name := if iface == "" then "wlan0" else iface;
      this.iface := name;
      wpa := new Client(name, daemon);
    }

    /** `state()`: one `status` command. */
    method GetState() returns (r: Result<Connection, Failure>)
      modifies wpa
      ensures wpa.sent == old(wpa.sent) + [CommandLine(wpa.iface, "status", [])] && wpa.daemon == old(wpa.daemon)
      ensures var out := Reply(CommandLine(wpa.iface, "status", []), Output(old(wpa.daemon), "status", []));
        r == if out.Err? then Err(out.error) else Ok(State(StatusOf(Lines(out.value))))
    {
      var status := wpa.Status();
      if status.Err? {
        return Err(status.error);
      }
      r := Ok(State(status.value));
    }

    /** `mode()`: one `status` command. */
    method GetMode() returns (r: Result<Mode, Failure>)
      modifies wpa
      ensures wpa.sent == old(wpa.sent) + [CommandLine(wpa.iface, "status", [])] && wpa.daemon == old(wpa.daemon)
      ensures var out := Reply(CommandLine(wpa.iface, "status", []), Output(old(wpa.daemon), "status", []));
        r == if out.Err? then Err(out.error) else Ok(ModeOf(StatusOf(Lines(out.value))))
    {
      var status := wpa.Status();
      if status.Err? {
        return Err(status.error);
      }
      r := Ok(ModeOf(status.value));
    }

    /** `addOrUpdateNetwork(ssid, password, {auth})`. */
    method AddOrUpdateNetwork(ssid: string, password: Val, auth: Val) returns (r: Result<string, Failure>)
      modifies wpa
      ensures var run := Reconcile(old(wpa.daemon), wpa.iface, ssid, password, auth);
        wpa.daemon == run.daemon && wpa.sent == old(wpa.sent) + run.sent && r == run.result
    {
      r := Reconciler.AddOrUpdateNetwork(wpa, ssid, password, auth);
    }

    /** The by-ssid commands: find the network, then send `cmd` with its id. */
    method OnNetwork(ssid: string, cmd: string) returns (r: Result<Option<string>, Failure>)
      modifies wpa
      ensures var run := OnNamed(old(wpa.daemon), wpa.iface, ssid, cmd);
        && wpa.daemon == run.daemon && wpa.sent == old(wpa.sent) + run.sent
        && r == OnNamedResult(old(wpa.daemon), wpa.iface, ssid, cmd)
    {
      ghost var sent0 := wpa.sent;
      ghost var l := Listing(wpa.daemon, wpa.iface);
      var found := FindNetworkBySsid(wpa, ssid);
      if found.Err? {
        return Err(found.error);
      }
      if found.value.None? {
        return Ok(None);
      }
      var res := wpa.Exec(cmd, Many([found.value.value.id]));
      ghost var line := CommandLine(wpa.iface, cmd, [found.value.value.id]);
      assert wpa.sent == sent0 + (l.sent + [line]) by {
        assert (sent0 + l.sent) + [line] == sent0 + (l.sent + [line]);
      }
      if res.Err? {
        return Err(res.error);
      }
      r := Ok(Some(res.value));
    }

    /** `removeNetwork(ssid)`. */
    method RemoveNetwork(ssid: string) returns (r: Result<Option<string>, Failure>)
      modifies wpa
      ensures var run := OnNamed(old(wpa.daemon), wpa.iface, ssid, "remove_network");
        && wpa.daemon == run.daemon && wpa.sent == old(wpa.sent) + run.sent
        && r == OnNamedResult(old(wpa.daemon), wpa.iface, ssid, "remove_network")
    {
      r := OnNetwork(ssid, "remove_network");
    }

    /** `enableNetworks(ssid)`. */
    method EnableNetworks(ssid: string) returns (r: Result<Option<string>, Failure>)
      modifies wpa
      ensures var run := OnNamed(old(wpa.daemon), wpa.iface, ssid, "enable_network");
        && wpa.daemon == run.daemon && wpa.sent == old(wpa.sent) + run.sent
        && r == OnNamedResult(old(wpa.daemon), wpa.iface, ssid, "enable_network")
    {
      r := OnNetwork(ssid, "enable_network");
    }

    /** `disableNetwork(ssid)`. */
    method DisableNetwork(ssid: string) returns (r: Result<Option<string>, Failure>)
      modifies wpa
      ensures var run := OnNamed(old(wpa.daemon), wpa.iface, ssid, "disable_network");
        && wpa.daemon == run.daemon && wpa.sent == old(wpa.sent) + run.sent
        && r == OnNamedResult(old(wpa.daemon), wpa.iface, ssid, "disable_network")
    {
      r := OnNetwork(ssid, "disable_network");
    }

    /** `selectNetwork(ssid)`. */
    method SelectNetwork(ssid: string) returns (r: Result<Option<string>, Failure>)
      modifies wpa
      ensures var run := OnNamed(old(wpa.daemon), wpa.iface, ssid, "select_network");
        && wpa.daemon == run.daemon && wpa.sent == old(wpa.sent) + run.sent
        && r == OnNamedResult(old(wpa.daemon), wpa.iface, ssid, "select_network")
    {
      r := OnNetwork(ssid, "select_network");
    }
  }
}
