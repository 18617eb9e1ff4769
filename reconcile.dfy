/** `addOrUpdateNetwork` and `findNetworkBySsid`, which lib/wireless.js and
    lib/wifi.js both implement (the first as a promise chain, the second as a
    loop): derive the ordered field map from (ssid, password, auth), reuse
    the first listed network with that ssid or add one, write every field,
    then enable, select and save.

    `Reconcile` states the whole exchange with the daemon as a function of
    the daemon's state; `AddOrUpdateNetwork` is the loop, proved to perform
    exactly that exchange; the lemmas say what the exchange does. */
module Reconciler {
  import opened Common
  import opened Text
  import opened Js
  import opened Supplicant
  import opened Wpa
  import Shell

  // ---------------------------------------------------------------- the field map

  /** The guard on the WEP fields, as written; it is only evaluated when the
      password is falsy. */
  predicate WepGuard(password: Val, auth: Val) {
    auth == Str("WEP") || (Truthy(password) && !Truthy(auth))
  }

  /** The settings to write, in insertion order. */
  function FieldData(ssid: string, password: Val, auth: Val): (r: Obj)
    ensures KeysDistinct(r)
  {
    var data := [("ssid", Str(ssid)), ("psk", password)];
    PutKeys(data, "key_mgmt", Str("WPA-PSK"));
    PutKeys(data, "key_mgmt", Str("NONE"));
    var data :=
      if Truthy(password) then Put(data, "key_mgmt", Str("WPA-PSK"))
      else WepData(Put(data, "key_mgmt", Str("NONE")), password, auth);
    PutKeys(data, "scan_ssid", Val.Int(1));
    Put(data, "scan_ssid", Val.Int(1))
  }

  /** The branch for a falsy password: the WEP fields when the guard holds. */
  function WepData(data: Obj, password: Val, auth: Val): (r: Obj)
    requires KeysDistinct(data)
    ensures KeysDistinct(r)
  {
    if WepGuard(password, auth) then
      PutKeys(data, "wep_tx_keyidx", Val.Int(0));
      var data := Put(data, "wep_tx_keyidx", Val.Int(0));
      PutKeys(data, "wep_key0", password);
      Put(data, "wep_key0", password)
    else data
  }

  /** The field map in full: `ssid` and `psk` first, `key_mgmt` by the
      password's truthiness, the WEP fields only for a falsy password with
      auth `WEP` (the `password && !auth` disjunct never applies), and
      `scan_ssid` last. */
  lemma FieldDataShape(ssid: string, password: Val, auth: Val)
    ensures FieldData(ssid, password, auth) ==
      [("ssid", Str(ssid)), ("psk", password), ("key_mgmt", Str(if Truthy(password) then "WPA-PSK" else "NONE"))]
      + (if !Truthy(password) && auth == Str("WEP") then [("wep_tx_keyidx", Val.Int(0)), ("wep_key0", password)] else [])
      + [("scan_ssid", Val.Int(1))]
  {
    var d0 := [("ssid", Str(ssid)), ("psk", password)];
    var km := Str(if Truthy(password) then "WPA-PSK" else "NONE");
    var d1 := d0 + [("key_mgmt", km)];
    assert Put(d0, "key_mgmt", km) == d1 && KeysDistinct(d1) by {
      PutFresh(d0, "key_mgmt", km);
    }
    var d3 := d1 + [("wep_tx_keyidx", Val.Int(0)), ("wep_key0", password)];
    if !Truthy(password) && auth == Str("WEP") {
      assert WepData(d1, password, auth) == d3 && KeysDistinct(d3) by {
        WepShape(d1, password, auth);
      }
      assert Put(d3, "scan_ssid", Val.Int(1)) == d3 + [("scan_ssid", Val.Int(1))] by {
        PutFresh(d3, "scan_ssid", Val.Int(1));
      }
    } else {
      assert Put(d1, "scan_ssid", Val.Int(1)) == d1 + [("scan_ssid", Val.Int(1))] by {
        PutFresh(d1, "scan_ssid", Val.Int(1));
      }
    }
  }

  lemma WepShape(d1: Obj, password: Val, auth: Val)
    requires |d1| == 3 && KeysDistinct(d1)
    requires d1[0].0 == "ssid" && d1[1].0 == "psk" && d1[2].0 == "key_mgmt"
    requires !Truthy(password) && auth == Str("WEP")
    ensures var d3 := d1 + [("wep_tx_keyidx", Val.Int(0)), ("wep_key0", password)];
      WepData(d1, password, auth) == d3 && KeysDistinct(d3)
  {
    var d2 := d1 + [("wep_tx_keyidx", Val.Int(0))];
    assert Put(d1, "wep_tx_keyidx", Val.Int(0)) == d2 && KeysDistinct(d2) by {
      PutFresh(d1, "wep_tx_keyidx", Val.Int(0));
    }
    assert Put(d2, "wep_key0", password) == d2 + [("wep_key0", password)] by {
      PutFresh(d2, "wep_key0", password);
    }
    assert d2 + [("wep_key0", password)] == d1 + [("wep_tx_keyidx", Val.Int(0)), ("wep_key0", password)];
    PutFresh(d2, "wep_key0", password);
  }

  /** Every key is a word the shell passes on unchanged. */
  predicate PlainKeys(data: Obj) {
    forall i :: 0 <= i < |data| ==> Shell.PlainWord(data[i].0)
  }

  /** The field map opens with the ssid, names each key once, and its keys
      reach the daemon as written. */
  lemma FieldDataStarts(ssid: string, password: Val, auth: Val)
    ensures var data := FieldData(ssid, password, auth);
      |data| >= 1 && data[0] == ("ssid", Str(ssid)) && KeysDistinct(data) && PlainKeys(data)
  {
    FieldDataShape(ssid, password, auth);
    FieldDataPlain(ssid, password, auth);
  }

  lemma FieldDataPlain(ssid: string, password: Val, auth: Val)
    ensures PlainKeys(FieldData(ssid, password, auth))
  {
    FieldDataShape(ssid, password, auth);
    FieldKeysPlain();
    var data := FieldData(ssid, password, auth);
    if !Truthy(password) && auth == Str("WEP") {
      KeysPlain(data, ["ssid", "psk", "key_mgmt", "wep_tx_keyidx", "wep_key0", "scan_ssid"]);
    } else {
      KeysPlain(data, ["ssid", "psk", "key_mgmt", "scan_ssid"]);
    }
  }

  /** Keys that match a list of plain words, position by position, are plain. */
  lemma KeysPlain(data: Obj, keys: seq<string>)
    requires |keys| == |data| && forall i :: 0 <= i < |data| ==> data[i].0 == keys[i]
    requires forall i :: 0 <= i < |keys| ==> Shell.PlainWord(keys[i])
    ensures PlainKeys(data)
  {
  }

  lemma FieldKeysPlain()
    ensures Shell.PlainWord("ssid") && Shell.PlainWord("psk") && Shell.PlainWord("key_mgmt")
    ensures Shell.PlainWord("wep_tx_keyidx") && Shell.PlainWord("wep_key0") && Shell.PlainWord("scan_ssid")
  {
    Shell.WordCharsPlain("ssid");
    Shell.WordCharsPlain("psk");
    Shell.WordCharsPlain("key_mgmt");
    Shell.WordCharsPlain("wep_tx_keyidx");
    Shell.WordCharsPlain("wep_key0");
    Shell.WordCharsPlain("scan_ssid");
  }

  /** The arguments of the `set_network` for one field: `ssid` and `psk` go
      in the quoted form of `String(value)`, any other key as `join` prints
      its value.  With a plain id, the daemon hears an `ssid` or `psk` text
      without a single quote double-quoted, and reads back exactly that
      text. */
  function SettingArgs(id: string, field: (string, Val)): (r: seq<string>)
    ensures |r| == 3 && r[0] == id && r[1] == field.0
    ensures Shell.PlainWord(id) && field.0 in {"ssid", "psk"} && ShellSafe(ToString(field.1)) ==>
      Heard(r) == Some([id, field.0, DoubleQuoted(ToString(field.1))]) && Unquote(Heard(r).value[2]) == ToString(field.1)
  {
    if field.0 in {"ssid", "psk"} then
      FieldKeysPlain();
      if Shell.PlainWord(id) && ShellSafe(ToString(field.1)) then
        QuoteHeard(id, field.0, ToString(field.1));
        [id, field.0, Quote(ToString(field.1))]
      else [id, field.0, Quote(ToString(field.1))]
    else [id, field.0, JoinText(field.1)]
  }

  // ---------------------------------------------------------------- findNetworkBySsid

  /** The position of the first row named `ssid`. */
  function FirstWithSsid(rows: seq<NetworkRow>, ssid: string): (r: Option<nat>)
    ensures r.Some? ==> r.value < |rows| && rows[r.value].ssid == ssid
    ensures r.Some? ==> forall i :: 0 <= i < r.value ==> rows[i].ssid != ssid
    ensures r.None? ==> forall i :: 0 <= i < |rows| ==> rows[i].ssid != ssid
  {
    if rows == [] then None
    else if rows[0].ssid == ssid then Some(0)
    else
      var r := FirstWithSsid(rows[1..], ssid);
      if r.Some? then Some(r.value + 1) else None
  }

  /** `networks.find(n => n.ssid === ssid)`. */
  function FindBySsid(rows: seq<NetworkRow>, ssid: string): Option<NetworkRow> {
    var i := FirstWithSsid(rows, ssid);
    if i.Some? then Some(rows[i.value]) else None
  }

  // ---------------------------------------------------------------- the exchange

  /** Commands sent one after another: the daemon's state reached, the lines
      sent, and the outcome of the last step sent. */
  datatype Run = Run(daemon: Daemon, sent: seq<string>, result: Result<string, Failure>)

  /** The next step of a chain: it is skipped once a step has failed. */
  function Then(r: Run, iface: string, cmd: string, args: seq<string>): Run {
    if r.result.Err? then r
    else
      var line := CommandLine(iface, cmd, args);
      Run(Next(r.daemon, cmd, args), r.sent + [line], Reply(line, Output(r.daemon, cmd, args)))
  }

  /** `list_networks`. */
  function Listing(d: Daemon, iface: string): Run {
    Then(Run(d, [], Ok("")), iface, "list_networks", [])
  }

  /** The position, among the listed rows, of the network to reuse. */
  function Existing(d: Daemon, iface: string, ssid: string): Option<nat> {
    var l := Listing(d, iface);
    if l.result.Err? then None else FirstWithSsid(ParseNetworkList(l.result.value), ssid)
  }

  /** The listing, followed by `add_network` when no row has the ssid. */
  function Prepared(d: Daemon, iface: string, ssid: string): Run {
    var l := Listing(d, iface);
    if Existing(d, iface, ssid).Some? then l else Then(l, iface, "add_network", [])
  }

  /** The id the fields are written to: the reused row's id, or the reply
      of `add_network` as `parseInt` reads it and `join` prints it. */
  function ChosenId(d: Daemon, iface: string, ssid: string): string {
    var e := Existing(d, iface, ssid);
    if e.Some? then ParseNetworkList(Listing(d, iface).result.value)[e.value].id
    else
      var p := Prepared(d, iface, ssid);
      if p.result.Ok? then NumText(ParseInt(p.result.value)) else ""
  }

  /** The first `n` field writes. */
  function WriteFields(start: Run, iface: string, id: string, data: Obj, n: nat): Run
    requires n <= |data|
  {
    if n == 0 then start
    else Then(WriteFields(start, iface, id, data, n - 1), iface, "set_network", SettingArgs(id, data[n - 1]))
  }

  /** The whole of `addOrUpdateNetwork(ssid, password, {auth})` against `d`. */
  function Reconcile(d: Daemon, iface: string, ssid: string, password: Val, auth: Val): Run {
    var id := ChosenId(d, iface, ssid);
    var data := FieldData(ssid, password, auth);
    Closing(WriteFields(Prepared(d, iface, ssid), iface, id, data, |data|), iface, id)
  }

  /** The three commands that close the exchange: enable, select, save. */
  function Closing(w: Run, iface: string, id: string): Run {
    Then(Then(Then(w, iface, "enable_network", [id]), iface, "select_network", [id]), iface, "save_config", [])
  }

  /** The `set_network` lines for a field map, in its order. */
  function SetLines(iface: string, id: string, data: Obj): (r: seq<string>)
    ensures |r| == |data| && forall i :: 0 <= i < |data| ==> r[i] == CommandLine(iface, "set_network", SettingArgs(id, data[i]))
  {
    seq(|data|, i requires 0 <= i < |data| => CommandLine(iface, "set_network", SettingArgs(id, data[i])))
  }

  /** The lines a successful reconciliation sends, in order. */
  function Plan(iface: string, reuse: bool, id: string, data: Obj): seq<string> {
    [CommandLine(iface, "list_networks", [])]
    + (if reuse then [] else [CommandLine(iface, "add_network", [])])
    + SetLines(iface, id, data)
    + [CommandLine(iface, "enable_network", [id]), CommandLine(iface, "select_network", [id]), CommandLine(iface, "save_config", [])]
  }

  // ---------------------------------------------------------------- the client side

  /** `findNetworkBySsid(ssid)`: list the networks and take the first row
      with that ssid. */
  method FindNetworkBySsid(c: Client, ssid: string) returns (r: Result<Option<NetworkRow>, Failure>)
    modifies c
    ensures var l := Listing(old(c.daemon), c.iface);
      && c.daemon == l.daemon && c.sent == old(c.sent) + l.sent
      && r == if l.result.Err? then Err(l.result.error) else Ok(FindBySsid(ParseNetworkList(l.result.value), ssid))
  {
    ListingIs(c.daemon, c.iface);
    var listed := c.ListNetworks();
    if listed.Err? {
      return Err(listed.error);
    }
    r := Ok(FindBySsid(listed.value, ssid));
  }

  /** The listing run is the one `list_networks` exchange: the daemon
      unchanged, one line sent, and the reply to it. */
  lemma ListingIs(d: Daemon, iface: string)
    ensures var line := CommandLine(iface, "list_networks", []);
      Listing(d, iface) == Run(d, [line], Reply(line, Respond(d, "list_networks", []).1))
  {
    ListOutput(d);
    assert [] + [CommandLine(iface, "list_networks", [])] == [CommandLine(iface, "list_networks", [])];
  }

  /** `network ? network.id : wpa.addNetwork()`: the id to configure. */
  method NetworkId(c: Client, ssid: string) returns (r: Result<string, Failure>)
    modifies c
    ensures var p := Prepared(old(c.daemon), c.iface, ssid);
      && c.daemon == p.daemon && c.sent == old(c.sent) + p.sent
      && r == if p.result.Err? then Err(p.result.error) else Ok(ChosenId(old(c.daemon), c.iface, ssid))
  {
    var found := FindNetworkBySsid(c, ssid);
    if found.Err? {
      return Err(found.error);
    }
    if found.value.Some? {
      return Ok(found.value.value.id);
    }
    var n := c.AddNetwork();
    if n.Err? {
      return Err(n.error);
    }
    r := Ok(NumText(n.value));
  }

  /** The field writes, one command at a time in the map's order; the first
      failure ends them. */
  method WriteAll(c: Client, id: string, data: Obj, ghost start: Run, ghost before: seq<string>)
    returns (failure: Option<Failure>)
    requires start.result.Ok? && c.daemon == start.daemon && c.sent == before + start.sent
    modifies c
    ensures var w := WriteFields(start, c.iface, id, data, |data|);
      && c.daemon == w.daemon && c.sent == before + w.sent
      && failure == if w.result.Err? then Some(w.result.error) else None
  {
    var i := 0;
    while i < |data|
      invariant 0 <= i <= |data|
      invariant WriteFields(start, c.iface, id, data, i).result.Ok?
      invariant c.daemon == WriteFields(start, c.iface, id, data, i).daemon
      invariant c.sent == before + WriteFields(start, c.iface, id, data, i).sent
    {
      var res := WriteField(c, id, data, i, start, before);
      if res.Err? {
        WriteFieldsStuck(start, c.iface, id, data, i + 1, |data|);
        return Some(res.error);
      }
      i := i + 1;
    }
    failure := None;
  }

  /** One field write, `setNetworkSettingString` for `ssid` and `psk` and
      `setNetworkSetting` for the rest: the write of field `i` after the
      `i` before it. */
  method WriteField(c: Client, id: string, data: Obj, i: nat, ghost start: Run, ghost before: seq<string>)
    returns (res: Result<string, Failure>)
    requires i < |data|
    requires var w := WriteFields(start, c.iface, id, data, i);
      w.result.Ok? && c.daemon == w.daemon && c.sent == before + w.sent
    modifies c
    ensures var n := WriteFields(start, c.iface, id, data, i + 1);
      c.daemon == n.daemon && c.sent == before + n.sent && res == n.result
  {
    ghost var w := WriteFields(start, c.iface, id, data, i);
    ghost var args := SettingArgs(id, data[i]);
    assert WriteFields(start, c.iface, id, data, i + 1) == Then(w, c.iface, "set_network", args);
    var key := data[i].0;
    if key == "ssid" || key == "psk" {
      assert args == [id, key, Quote(ToString(data[i].1))];
      res := c.SetNetworkSettingString(id, key, ToString(data[i].1));
    } else {
      assert args == [id, key, JoinText(data[i].1)];
      res := c.SetNetworkSetting(id, key, JoinText(data[i].1));
    }
    AppendAssoc(before, w.sent, [CommandLine(c.iface, "set_network", args)]);
  }

  /** lib/wifi.js's `addOrUpdateNetwork`: the exchange as a loop over the
      field map, then enable, select and save; any failing command ends it
      with that failure, and success returns the reply to `save_config`. */
  method AddOrUpdateNetwork(c: Client, ssid: string, password: Val, auth: Val) returns (r: Result<string, Failure>)
    modifies c
    ensures var run := Reconcile(old(c.daemon), c.iface, ssid, password, auth);
            c.daemon == run.daemon && c.sent == old(c.sent) + run.sent && r == run.result
  {
    ghost var d0 := c.daemon;
    ghost var sent0 := c.sent;
    ghost var start := Prepared(d0, c.iface, ssid);
    ghost var cid := ChosenId(d0, c.iface, ssid);
    var data := FieldData(ssid, password, auth);
    ghost var w := WriteFields(start, c.iface, cid, data, |data|);
    assert Reconcile(d0, c.iface, ssid, password, auth) == Closing(w, c.iface, cid);
    var id := NetworkId(c, ssid);
    if id.Err? {
      assert w == start by { WriteFieldsStuck(start, c.iface, cid, data, 0, |data|); }
      return Err(id.error);
    }
    var failure := WriteAll(c, id.value, data, start, sent0);
    if failure.Some? {
      return Err(failure.value);
    }
    r := Finish(c, id.value, w, sent0);
  }

  /** `enableNetwork`, `selectNetwork` and `saveConfiguration` on the id,
      each only once the one before has succeeded. */
  method Finish(c: Client, id: string, ghost w: Run, ghost before: seq<string>) returns (r: Result<string, Failure>)
    requires w.result.Ok? && c.daemon == w.daemon && c.sent == before + w.sent
    modifies c
    ensures var run := Closing(w, c.iface, id);
      c.daemon == run.daemon && c.sent == before + run.sent && r == run.result
  {
    ghost var e := Then(w, c.iface, "enable_network", [id]);
    r := c.EnableNetwork(id);
    AppendAssoc(before, w.sent, [CommandLine(c.iface, "enable_network", [id])]);
    if r.Err? {
      return;
    }
    ghost var s := Then(e, c.iface, "select_network", [id]);
    r := c.SelectNetwork(id);
    AppendAssoc(before, e.sent, [CommandLine(c.iface, "select_network", [id])]);
    if r.Err? {
      return;
    }
    r := c.SaveConfiguration();
    AppendAssoc(before, s.sent, [CommandLine(c.iface, "save_config", [])]);
  }

  /** Once a write has failed, the later ones send nothing. */
  lemma {:induction false} WriteFieldsStuck(start: Run, iface: string, id: string, data: Obj, i: nat, n: nat)
    requires i <= n <= |data| && WriteFields(start, iface, id, data, i).result.Err?
    ensures WriteFields(start, iface, id, data, n) == WriteFields(start, iface, id, data, i)
    decreases n
  {
    if n > i {
      var prev := WriteFields(start, iface, id, data, n - 1);
      assert prev == WriteFields(start, iface, id, data, i) by {
        WriteFieldsStuck(start, iface, id, data, i, n - 1);
      }
      assert WriteFields(start, iface, id, data, n) == prev;
    }
  }

  // ---------------------------------------------------------------- the lines sent

  /** The writes send a prefix of their lines, all of them when they succeed. */
  lemma {:induction false} WriteFieldsSent(start: Run, iface: string, id: string, data: Obj, n: nat)
    requires n <= |data|
    ensures var w := WriteFields(start, iface, id, data, n);
      && start.sent <= w.sent <= start.sent + SetLines(iface, id, data[..n])
      && (w.result.Ok? ==> start.result.Ok? && w.sent == start.sent + SetLines(iface, id, data[..n]))
  {
    if n == 0 {
      assert SetLines(iface, id, data[..0]) == [];
    } else {
      var prev := WriteFields(start, iface, id, data, n - 1);
      var args := SettingArgs(id, data[n - 1]);
      var p := start.sent + SetLines(iface, id, data[..n - 1]);
      WriteFieldsSent(start, iface, id, data, n - 1);
      ThenSent(prev, iface, "set_network", args, p);
      assert p + [CommandLine(iface, "set_network", args)] == start.sent + SetLines(iface, id, data[..n]) by {
        SetLinesSnoc(iface, id, data, n);
        AppendAssoc(start.sent, SetLines(iface, id, data[..n - 1]), [CommandLine(iface, "set_network", args)]);
      }
    }
  }

  /** The lines of one field more: those of the fields before, then its own. */
  lemma SetLinesSnoc(iface: string, id: string, data: Obj, n: nat)
    requires 0 < n <= |data|
    ensures SetLines(iface, id, data[..n])
      == SetLines(iface, id, data[..n - 1]) + [CommandLine(iface, "set_network", SettingArgs(id, data[n - 1]))]
  {
    var a := SetLines(iface, id, data[..n]);
    var b := SetLines(iface, id, data[..n - 1]) + [CommandLine(iface, "set_network", SettingArgs(id, data[n - 1]))];
    forall i | 0 <= i < n
      ensures a[i] == b[i]
    {
      if i < n - 1 {
        assert data[..n][i] == data[..n - 1][i];
      }
    }
  }

  /** One more step sends at most its own line after a prefix of `p`, and
      exactly `p` and that line when it succeeds. */
  lemma ThenSent(r: Run, iface: string, cmd: string, args: seq<string>, p: seq<string>)
    requires r.sent <= p && (r.result.Ok? ==> r.sent == p)
    ensures var n := Then(r, iface, cmd, args);
      && n.sent <= p + [CommandLine(iface, cmd, args)]
      && (n.result.Ok? ==> n.sent == p + [CommandLine(iface, cmd, args)])
  {
    if r.result.Err? {
      assert p <= p + [CommandLine(iface, cmd, args)];
    }
  }

  /** The three closing commands send a prefix of their lines after the
      writes', and all of them when they succeed. */
  lemma ClosingSent(w: Run, iface: string, id: string, body: seq<string>)
    requires w.sent <= body && (w.result.Ok? ==> w.sent == body)
    ensures var run := Closing(w, iface, id);
      var plan := body + [CommandLine(iface, "enable_network", [id]), CommandLine(iface, "select_network", [id]), CommandLine(iface, "save_config", [])];
      && run.sent <= plan
      && (run.result.Ok? ==> run.sent == plan)
  {
    var l1 := CommandLine(iface, "enable_network", [id]);
    var l2 := CommandLine(iface, "select_network", [id]);
    var l3 := CommandLine(iface, "save_config", []);
    var e := Then(w, iface, "enable_network", [id]);
    var s := Then(e, iface, "select_network", [id]);
    ThenSent(w, iface, "enable_network", [id], body);
    ThenSent(e, iface, "select_network", [id], body + [l1]);
    ThenSent(s, iface, "save_config", [], body + [l1] + [l2]);
    assert body + [l1] + [l2] + [l3] == body + [l1, l2, l3];
  }

  /** The writes and the three closing commands, from any start, send a
      prefix of their lines after the start's, and all of them when they
      succeed. */
  lemma ChainSent(start: Run, iface: string, id: string, data: Obj, head: seq<string>)
    requires start.sent <= head && (start.result.Ok? ==> start.sent == head)
    ensures var run := Closing(WriteFields(start, iface, id, data, |data|), iface, id);
      var plan := head + SetLines(iface, id, data)
        + [CommandLine(iface, "enable_network", [id]), CommandLine(iface, "select_network", [id]), CommandLine(iface, "save_config", [])];
      && run.sent <= plan
      && (run.result.Ok? ==> run.sent == plan)
  {
    var w := WriteFields(start, iface, id, data, |data|);
    var body := head + SetLines(iface, id, data);
    if start.result.Err? {
      assert w == start by { WriteFieldsStuck(start, iface, id, data, 0, |data|); }
      assert head <= body;
    } else {
      assert w.sent <= body && (w.result.Ok? ==> w.sent == body) by {
        WriteFieldsSent(start, iface, id, data, |data|);
        assert data[..|data|] == data;
      }
    }
    ClosingSent(w, iface, id, body);
  }

  /** The listing and the optional `add_network` send a prefix of their
      lines, and both when they succeed. */
  lemma PreparedSent(d: Daemon, iface: string, ssid: string)
    ensures var p := Prepared(d, iface, ssid);
      var head := [CommandLine(iface, "list_networks", [])]
        + (if Existing(d, iface, ssid).Some? then [] else [CommandLine(iface, "add_network", [])]);
      && p.sent <= head
      && (p.result.Ok? ==> p.sent == head)
  {
  }

  /** Every reconciliation sends a prefix of the plan — so a failing step
      stops the rest — and a successful one sends the plan exactly: the
      listing, `add_network` only when no listed network has the ssid, one
      `set_network` per field in order, then enable, select and save on the
      same id. */
  lemma ReconcileSent(d: Daemon, iface: string, ssid: string, password: Val, auth: Val)
    ensures var run := Reconcile(d, iface, ssid, password, auth);
      var plan := Plan(iface, Existing(d, iface, ssid).Some?, ChosenId(d, iface, ssid), FieldData(ssid, password, auth));
      && run.sent <= plan
      && (run.result.Ok? ==> run.sent == plan)
  {
    var id := ChosenId(d, iface, ssid);
    var data := FieldData(ssid, password, auth);
    var head := [CommandLine(iface, "list_networks", [])]
      + (if Existing(d, iface, ssid).Some? then [] else [CommandLine(iface, "add_network", [])]);
    PreparedSent(d, iface, ssid);
    ChainSent(Prepared(d, iface, ssid), iface, id, data, head);
  }

  // ---------------------------------------------------------------- the table

  /** `nets` has `base`'s ids in the same places and `base`'s names except
      at `k`, which is named `name`. */
  predicate Tracks(nets: seq<Network>, base: seq<Network>, k: nat, name: string) {
    && |nets| == |base| && k < |base|
    && (forall i :: 0 <= i < |base| ==> nets[i].id == base[i].id)
    && (forall i :: 0 <= i < |base| && i != k ==> nets[i].ssid == base[i].ssid)
    && nets[k].ssid == name
  }

  /** A command naming a network by its printed id reaches that network. */
  lemma TargetOfId(d: Daemon, k: nat, args: seq<string>)
    requires Valid(d) && k < |d.networks| && |args| >= 1 && args[0] == NatToString(d.networks[k].id)
    ensures Target(d, args) == Some(k)
  {
    DigitsValueOfNatToString(d.networks[k].id);
    assert IdArg(args[0]) == Some(d.networks[k].id);
  }

  /** A daemon command that does not fail keeps the shape tracked, and only
      a `set_network ... ssid` heard with three arguments renames the
      tracked network. */
  lemma StepTracks(d: Daemon, base: seq<Network>, k: nat, name: string, cmd: string, args: seq<string>)
    requires Valid(d) && Tracks(d.networks, base, k, name)
    requires cmd in {"set_network", "enable_network", "select_network", "save_config"}
    requires Heard(args).Some?
    requires cmd != "save_config" ==> |Heard(args).value| >= 1 && Heard(args).value[0] == NatToString(base[k].id)
    requires Trim(Output(d, cmd, args)) != "FAIL"
    ensures var d' := Next(d, cmd, args);
      var h := Heard(args).value;
      && Valid(d')
      && Tracks(d'.networks, base, k, if cmd == "set_network" && |h| == 3 && h[1] == "ssid" then Unquote(h[2]) else name)
  {
    var h := Heard(args).value;
    assert cmd !in d.refused by {
      assert Trimmed("FAIL");
      TrimOfTrimmed("FAIL");
    }
    if cmd != "save_config" {
      var nets := Edit(d.networks, k, cmd, h);
      assert Next(d, cmd, args) == d.(networks := nets) by { TargetOfId(d, k, h); }
      assert Valid(d.(networks := nets)) by { SameIdsValid(d, nets); }
      EditNames(d.networks, k, cmd, h);
    }
  }

  /** Successful writes keep the shape tracked, and once the first field
      (the ssid) is written the tracked network carries the ssid. */
  lemma {:induction false} WriteTracks(start: Run, iface: string, base: seq<Network>, k: nat, name0: string,
                                       ssid: string, data: Obj, n: nat)
    requires n <= |data| && |data| >= 1 && data[0] == ("ssid", Str(ssid)) && KeysDistinct(data)
    requires PlainKeys(data) && ShellSafe(ssid)
    requires Valid(start.daemon) && Tracks(start.daemon.networks, base, k, name0)
    ensures var w := WriteFields(start, iface, NatToString(base[k].id), data, n);
      w.result.Ok? ==> Valid(w.daemon) && Tracks(w.daemon.networks, base, k, if n == 0 then name0 else ssid)
  {
    if n > 0 {
      var id := NatToString(base[k].id);
      var w := WriteFields(start, iface, id, data, n - 1);
      WriteTracks(start, iface, base, k, name0, ssid, data, n - 1);
      if w.result.Ok? {
        assert data[n - 1].0 == "ssid" <==> n - 1 == 0 by {
          if n - 1 != 0 { assert data[0].0 != data[n - 1].0; }
        }
        WriteStepTracks(w, iface, base, k, if n - 1 == 0 then name0 else ssid, id, data[n - 1], ssid);
      }
    }
  }

  /** One successful field write keeps the shape tracked, and the write of
      the `ssid` field names the tracked network `ssid`. */
  lemma WriteStepTracks(w: Run, iface: string, base: seq<Network>, k: nat, name: string, id: string,
                        field: (string, Val), ssid: string)
    requires w.result.Ok? && Valid(w.daemon) && Tracks(w.daemon.networks, base, k, name)
    requires id == NatToString(base[k].id) && Shell.PlainWord(field.0)
    requires field.0 == "ssid" ==> field.1 == Str(ssid) && ShellSafe(ssid)
    ensures var n := Then(w, iface, "set_network", SettingArgs(id, field));
      n.result.Ok? ==> Valid(n.daemon) && Tracks(n.daemon.networks, base, k, if field.0 == "ssid" then ssid else name)
  {
    var args := SettingArgs(id, field);
    if Reply(CommandLine(iface, "set_network", args), Output(w.daemon, "set_network", args)).Ok? {
      assert Heard(args).Some? by {
        assert Trimmed("FAIL");
        TrimOfTrimmed("FAIL");
      }
      IdPlain(base[k].id);
      assert args == [id] + ([field.0] + [args[2]]);
      HeardCons(field.0, [args[2]]);
      HeardCons(id, [field.0] + [args[2]]);
      var h := Heard(args).value;
      assert h[0] == id && h[1] == field.0;
      StepTracks(w.daemon, base, k, name, "set_network", args);
      if field.0 == "ssid" {
        assert Unquote(h[2]) == ssid;
      }
    }
  }

  lemma ListOutput(d: Daemon)
    ensures Next(d, "list_networks", []) == d
    ensures Output(d, "list_networks", []) == if "list_networks" in d.refused then "FAIL" else RenderNetworks(d.networks)
  {
    HeardNone();
  }

  /** The listing of a daemon: its table, read back. */
  lemma ListingRows(d: Daemon, iface: string)
    requires forall i :: 0 <= i < |d.networks| ==> Cell(d.networks[i].ssid)
    ensures var l := Listing(d, iface);
      && l.daemon == d
      && (l.result.Ok? ==> ParseNetworkList(l.result.value) == RowsOf(d.networks))
  {
    ListOutput(d);
    RenderTrimmed(d.networks);
    ListRoundTrip(d.networks);
  }

  /** What `add_network` does to a valid daemon when it succeeds: one
      network more, carrying the id the reply prints. */
  lemma AddedNetwork(r: Run, iface: string)
    requires Valid(r.daemon) && r.result.Ok?
    ensures var d := r.daemon;
      var a := Then(r, iface, "add_network", []);
      a.result.Ok? ==>
        && Valid(a.daemon)
        && a.daemon.networks == d.networks + [Network(d.nextId, "", map[], true)]
        && NumText(ParseInt(a.result.value)) == NatToString(d.nextId)
  {
    var d := r.daemon;
    var a := Then(r, iface, "add_network", []);
    HeardNone();
    if a.result.Ok? {
      assert "add_network" !in d.refused by {
        assert Trimmed("FAIL");
        TrimOfTrimmed("FAIL");
      }
      var s := NatToString(d.nextId);
      assert a.daemon == d.(networks := d.networks + [Network(d.nextId, "", map[], true)], nextId := d.nextId + 1);
      assert a.result.value == s by {
        assert Trimmed(s) by { assert IsDigit(s[0]) && IsDigit(s[|s| - 1]); }
        TrimOfTrimmed(s);
      }
      ParseIntOfNatToString(d.nextId);
      AppendValid(d);
    }
  }


  /** The writes and the three closing commands, when they all succeed,
      leave the tracked network named `ssid` and everything else as it was. */
  lemma ChainTracks(start: Run, iface: string, base: seq<Network>, k: nat, name0: string, ssid: string, data: Obj)
    requires |data| >= 1 && data[0] == ("ssid", Str(ssid)) && KeysDistinct(data)
    requires PlainKeys(data) && ShellSafe(ssid)
    requires Valid(start.daemon) && Tracks(start.daemon.networks, base, k, name0)
    ensures var id := NatToString(base[k].id);
      var w := WriteFields(start, iface, id, data, |data|);
      var run := Closing(w, iface, id);
      run.result.Ok? ==> start.result.Ok? && Tracks(run.daemon.networks, base, k, ssid)
  {
    var id := NatToString(base[k].id);
    var w := WriteFields(start, iface, id, data, |data|);
    var e := Then(w, iface, "enable_network", [id]);
    var s := Then(e, iface, "select_network", [id]);
    var run := Then(s, iface, "save_config", []);
    if run.result.Ok? {
      assert s.result.Ok? && e.result.Ok? && w.result.Ok?;
      WriteFieldsSent(start, iface, id, data, |data|);
      WriteTracks(start, iface, base, k, name0, ssid, data, |data|);
      HeardId(base[k].id);
      HeardNone();
      StepTracks(w.daemon, base, k, ssid, "enable_network", [id]);
      StepTracks(e.daemon, base, k, ssid, "select_network", [id]);
      StepTracks(s.daemon, base, k, ssid, "save_config", []);
    }
  }

  /** Against a daemon whose names are table cells, a successful listing
      finds a network exactly when one has the name, finds the first one, and
      the id chosen is that network's printed id. */
  lemma ExistingSpec(d: Daemon, iface: string, ssid: string)
    requires forall i :: 0 <= i < |d.networks| ==> Cell(d.networks[i].ssid)
    requires Listing(d, iface).result.Ok?
    ensures Existing(d, iface, ssid).Some? <==> CountSsid(d.networks, ssid) > 0
    ensures Existing(d, iface, ssid).Some? ==>
      var k := Existing(d, iface, ssid).value;
      && k < |d.networks| && d.networks[k].ssid == ssid
      && (forall i :: 0 <= i < k ==> d.networks[i].ssid != ssid)
      && ChosenId(d, iface, ssid) == NatToString(d.networks[k].id)
  {
    var l := Listing(d, iface);
    ListingRows(d, iface);
    var rows := ParseNetworkList(l.result.value);
    assert forall i :: 0 <= i < |d.networks| ==> rows[i] == RowOf(d.networks[i]);
    CountPositive(d.networks, ssid);
  }

  /** The reconciliation when a listed network already has the ssid. */
  lemma ReuseCount(d: Daemon, iface: string, ssid: string, password: Val, auth: Val)
    requires Valid(d) && Cell(ssid) && ShellSafe(ssid)
    requires forall i :: 0 <= i < |d.networks| ==> Cell(d.networks[i].ssid)
    requires Listing(d, iface).result.Ok? && Existing(d, iface, ssid).Some?
    ensures var run := Reconcile(d, iface, ssid, password, auth);
      run.result.Ok? ==> CountSsid(run.daemon.networks, ssid) == CountSsid(d.networks, ssid) > 0
  {
    var run := Reconcile(d, iface, ssid, password, auth);
    var data := FieldData(ssid, password, auth);
    var start := Prepared(d, iface, ssid);
    var k := Existing(d, iface, ssid).value;
    assert start == Listing(d, iface);
    assert start.daemon == d by { ListingRows(d, iface); }
    assert k < |d.networks| && d.networks[k].ssid == ssid && ChosenId(d, iface, ssid) == NatToString(d.networks[k].id)
      && CountSsid(d.networks, ssid) > 0 by {
      ExistingSpec(d, iface, ssid);
    }
    var id := NatToString(d.networks[k].id);
    assert run == Closing(WriteFields(start, iface, id, data, |data|), iface, id);
    FieldDataStarts(ssid, password, auth);
    ReusedCount(start, iface, k, ssid, data);
  }

  /** Writing the fields and closing on a network already named `ssid`
      leaves the count of `ssid` as it was. */
  lemma ReusedCount(start: Run, iface: string, k: nat, ssid: string, data: Obj)
    requires Valid(start.daemon) && k < |start.daemon.networks| && start.daemon.networks[k].ssid == ssid
    requires |data| >= 1 && data[0] == ("ssid", Str(ssid)) && KeysDistinct(data)
    requires PlainKeys(data) && ShellSafe(ssid)
    ensures var id := NatToString(start.daemon.networks[k].id);
      var run := Closing(WriteFields(start, iface, id, data, |data|), iface, id);
      run.result.Ok? ==> CountSsid(run.daemon.networks, ssid) == CountSsid(start.daemon.networks, ssid)
  {
    var base := start.daemon.networks;
    ChainCount(start, iface, base, k, ssid, ssid, data);
    assert base[k := base[k].(ssid := ssid)] == base;
  }

  /** After the writes and the closing commands succeed, the count of `ssid`
      is that of the tracked table with the tracked network renamed `ssid`. */
  lemma ChainCount(start: Run, iface: string, base: seq<Network>, k: nat, name0: string, ssid: string, data: Obj)
    requires |data| >= 1 && data[0] == ("ssid", Str(ssid)) && KeysDistinct(data)
    requires PlainKeys(data) && ShellSafe(ssid)
    requires Valid(start.daemon) && Tracks(start.daemon.networks, base, k, name0)
    ensures var id := NatToString(base[k].id);
      var run := Closing(WriteFields(start, iface, id, data, |data|), iface, id);
      run.result.Ok? ==> CountSsid(run.daemon.networks, ssid) == CountSsid(base[k := base[k].(ssid := ssid)], ssid)
  {
    var id := NatToString(base[k].id);
    var run := Closing(WriteFields(start, iface, id, data, |data|), iface, id);
    ChainTracks(start, iface, base, k, name0, ssid, data);
    if run.result.Ok? {
      CountSameNames(run.daemon.networks, base[k := base[k].(ssid := ssid)], ssid);
    }
  }

  /** When no listed network has the ssid and `add_network` succeeds, the
      fields go to the new network's id. */
  lemma AddedId(d: Daemon, iface: string, ssid: string)
    requires Valid(d) && Existing(d, iface, ssid).None?
    requires Listing(d, iface).result.Ok? && Prepared(d, iface, ssid).result.Ok?
    ensures var p := Prepared(d, iface, ssid);
      && Valid(p.daemon)
      && p.daemon.networks == d.networks + [Network(d.nextId, "", map[], true)]
      && ChosenId(d, iface, ssid) == NatToString(d.nextId)
  {
    ListOutput(d);
    AddedNetwork(Listing(d, iface), iface);
  }

  /** The reconciliation when no listed network has the ssid. */
  lemma AddCount(d: Daemon, iface: string, ssid: string, password: Val, auth: Val)
    requires Valid(d) && Cell(ssid) && ShellSafe(ssid)
    requires forall i :: 0 <= i < |d.networks| ==> Cell(d.networks[i].ssid)
    requires Listing(d, iface).result.Ok? && Existing(d, iface, ssid).None?
    ensures var run := Reconcile(d, iface, ssid, password, auth);
      run.result.Ok? ==> CountSsid(d.networks, ssid) == 0 && CountSsid(run.daemon.networks, ssid) == 1
  {
    var id := ChosenId(d, iface, ssid);
    var data := FieldData(ssid, password, auth);
    var start := Prepared(d, iface, ssid);
    var w := WriteFields(start, iface, id, data, |data|);
    assert Reconcile(d, iface, ssid, password, auth) == Closing(w, iface, id);
    assert CountSsid(d.networks, ssid) == 0 by { ExistingSpec(d, iface, ssid); }
    if start.result.Err? {
      assert w == start by { WriteFieldsStuck(start, iface, id, data, 0, |data|); }
    } else {
      assert Valid(start.daemon) && start.daemon.networks == d.networks + [Network(d.nextId, "", map[], true)]
        && id == NatToString(d.nextId) by {
        AddedId(d, iface, ssid);
      }
      FieldDataStarts(ssid, password, auth);
      AddedCount(d.networks, d.nextId, start, iface, ssid, data);
    }
  }

  /** Writing the fields and closing on a network just appended to `nets`
      adds one network named `ssid` to the count. */
  lemma AddedCount(nets: seq<Network>, next: nat, start: Run, iface: string, ssid: string, data: Obj)
    requires Valid(start.daemon) && start.daemon.networks == nets + [Network(next, "", map[], true)]
    requires |data| >= 1 && data[0] == ("ssid", Str(ssid)) && KeysDistinct(data)
    requires PlainKeys(data) && ShellSafe(ssid)
    ensures var id := NatToString(next);
      var run := Closing(WriteFields(start, iface, id, data, |data|), iface, id);
      run.result.Ok? ==> CountSsid(run.daemon.networks, ssid) == CountSsid(nets, ssid) + 1
  {
    var base := start.daemon.networks;
    var k := |nets|;
    var named := nets + [Network(next, ssid, map[], true)];
    ChainCount(start, iface, base, k, "", ssid, data);
    assert base[k := base[k].(ssid := ssid)] == named;
    CountSnoc(nets, Network(next, ssid, map[], true), ssid);
  }

  /** On a valid daemon whose names are table cells, a successful
      reconciliation for a cell-shaped `ssid` reuses a network exactly when
      one already has that name, and afterwards the number of networks with
      that name is unchanged if it was positive and 1 otherwise: no second
      network is added for a known ssid. */
  lemma ReconcileCount(d: Daemon, iface: string, ssid: string, password: Val, auth: Val)
    requires Valid(d) && Cell(ssid) && ShellSafe(ssid)
    requires forall i :: 0 <= i < |d.networks| ==> Cell(d.networks[i].ssid)
    ensures var run := Reconcile(d, iface, ssid, password, auth);
      run.result.Ok? ==>
        && (Existing(d, iface, ssid).Some? <==> CountSsid(d.networks, ssid) > 0)
        && CountSsid(run.daemon.networks, ssid) == (if CountSsid(d.networks, ssid) > 0 then CountSsid(d.networks, ssid) else 1)
  {
    var l := Listing(d, iface);
    if l.result.Ok? {
      ExistingSpec(d, iface, ssid);
      if Existing(d, iface, ssid).Some? {
        ReuseCount(d, iface, ssid, password, auth);
      } else {
        AddCount(d, iface, ssid, password, auth);
      }
    } else {
      var start := Prepared(d, iface, ssid);
      var data := FieldData(ssid, password, auth);
      assert start == l;
      WriteFieldsStuck(start, iface, ChosenId(d, iface, ssid), data, 0, |data|);
    }
  }

  // ---------------------------------------------------------------- names with blanks at either end

  /** The listing of a daemon whose names hold no tab or line break: its
      table, each name trimmed as the listing parse trims it. */
  lemma ListingListed(d: Daemon, iface: string)
    requires forall i :: 0 <= i < |d.networks| ==> Avoids(d.networks[i].ssid, {'\t', '\n'})
    ensures var l := Listing(d, iface);
      && l.daemon == d
      && (l.result.Ok? ==> ParseNetworkList(l.result.value) == ListedRows(d.networks))
  {
    ListOutput(d);
    RenderTrimmed(d.networks);
    ListRoundTripListed(d.networks);
  }

  /** As written: the listing trims every name and the lookup compares with
      `===`, so a name with a blank at either end is never found, whatever
      the daemon holds. */
  lemma PaddedNotFound(d: Daemon, iface: string, ssid: string)
    requires !Trimmed(ssid)
    ensures Existing(d, iface, ssid).None?
  {
    var l := Listing(d, iface);
    if l.result.Ok? {
      RowsTrimmed(Lines(l.result.value)[1..]);
    }
  }

  /** As written: for such a name every successful exchange adds one more
      network carrying it, however many already do; a daemon holding
      `" x"` once holds it twice after a successful reconciliation of `" x"`. */
  lemma PaddedAddsAgain(d: Daemon, iface: string, ssid: string, password: Val, auth: Val)
    requires Valid(d) && ShellSafe(ssid) && !Trimmed(ssid)
    ensures var run := Reconcile(d, iface, ssid, password, auth);
      run.result.Ok? ==> CountSsid(run.daemon.networks, ssid) == CountSsid(d.networks, ssid) + 1
  {
    PaddedNotFound(d, iface, ssid);
    var id := ChosenId(d, iface, ssid);
    var data := FieldData(ssid, password, auth);
    var start := Prepared(d, iface, ssid);
    var w := WriteFields(start, iface, id, data, |data|);
    assert Reconcile(d, iface, ssid, password, auth) == Closing(w, iface, id);
    if start.result.Err? {
      assert w == start by { WriteFieldsStuck(start, iface, id, data, 0, |data|); }
    } else {
      assert Listing(d, iface).result.Ok?;
      AddedId(d, iface, ssid);
      FieldDataStarts(ssid, password, auth);
      AddedCount(d.networks, d.nextId, start, iface, ssid, data);
    }
  }

  /** The networks with their names as the listing shows them: trimmed. */
  function Shown(nets: seq<Network>): (r: seq<Network>)
    ensures |r| == |nets| && forall i :: 0 <= i < |nets| ==> r[i].ssid == Trim(nets[i].ssid) && r[i].id == nets[i].id
  {
    seq(|nets|, i requires 0 <= i < |nets| => nets[i].(ssid := Trim(nets[i].ssid)))
  }

  /** The corrected exchange: the listed names are compared with the
      trimmed ssid, the form in which the listing shows every name; the
      fields written are those of the ssid as given. */
  function ReconcileTrimmed(d: Daemon, iface: string, ssid: string, password: Val, auth: Val): Run {
    var key := Trim(ssid);
    var id := ChosenId(d, iface, key);
    var data := FieldData(ssid, password, auth);
    Closing(WriteFields(Prepared(d, iface, key), iface, id, data, |data|), iface, id)
  }

  /** What the corrected lookup finds: a network shown under `key`, the
      first one, exactly when one exists. */
  lemma ShownSpec(d: Daemon, iface: string, key: string)
    requires forall i :: 0 <= i < |d.networks| ==> Avoids(d.networks[i].ssid, {'\t', '\n'})
    requires Listing(d, iface).result.Ok?
    ensures Existing(d, iface, key).Some? <==> CountSsid(Shown(d.networks), key) > 0
    ensures Existing(d, iface, key).Some? ==>
      var k := Existing(d, iface, key).value;
      && k < |d.networks| && Trim(d.networks[k].ssid) == key
      && ChosenId(d, iface, key) == NatToString(d.networks[k].id)
  {
    var l := Listing(d, iface);
    ListingListed(d, iface);
    var rows := ParseNetworkList(l.result.value);
    assert forall i :: 0 <= i < |d.networks| ==> rows[i] == ListedRow(d.networks[i]);
    CountPositive(Shown(d.networks), key);
  }

  /** The corrected exchange when a network is shown under the trimmed
      name: the number shown under it stays as it was. */
  lemma TrimmedReuse(d: Daemon, iface: string, ssid: string, password: Val, auth: Val)
    requires Valid(d) && ShellSafe(ssid)
    requires forall i :: 0 <= i < |d.networks| ==> Avoids(d.networks[i].ssid, {'\t', '\n'})
    requires Listing(d, iface).result.Ok? && Existing(d, iface, Trim(ssid)).Some?
    ensures var run := ReconcileTrimmed(d, iface, ssid, password, auth);
      run.result.Ok? ==> CountSsid(Shown(run.daemon.networks), Trim(ssid)) == CountSsid(Shown(d.networks), Trim(ssid))
  {
    var key := Trim(ssid);
    var data := FieldData(ssid, password, auth);
    var start := Prepared(d, iface, key);
    var k := Existing(d, iface, key).value;
    assert start == Listing(d, iface);
    assert start.daemon == d by { ListingListed(d, iface); }
    ShownSpec(d, iface, key);
    var id := NatToString(d.networks[k].id);
    var run := Closing(WriteFields(start, iface, id, data, |data|), iface, id);
    assert ReconcileTrimmed(d, iface, ssid, password, auth) == run;
    FieldDataStarts(ssid, password, auth);
    ChainTracks(start, iface, d.networks, k, d.networks[k].ssid, ssid, data);
    if run.result.Ok? {
      ShownTracksCount(run.daemon.networks, d.networks, k, ssid, key);
    }
  }

  /** The corrected exchange when no network is shown under the trimmed
      name: one more is shown under it afterwards. */
  lemma TrimmedAdd(d: Daemon, iface: string, ssid: string, password: Val, auth: Val)
    requires Valid(d) && ShellSafe(ssid)
    requires Listing(d, iface).result.Ok? && Existing(d, iface, Trim(ssid)).None?
    ensures var run := ReconcileTrimmed(d, iface, ssid, password, auth);
      run.result.Ok? ==> CountSsid(Shown(run.daemon.networks), Trim(ssid)) == CountSsid(Shown(d.networks), Trim(ssid)) + 1
  {
    var key := Trim(ssid);
    var data := FieldData(ssid, password, auth);
    var id := ChosenId(d, iface, key);
    var start := Prepared(d, iface, key);
    var w := WriteFields(start, iface, id, data, |data|);
    assert ReconcileTrimmed(d, iface, ssid, password, auth) == Closing(w, iface, id);
    if start.result.Err? {
      assert w == start by { WriteFieldsStuck(start, iface, id, data, 0, |data|); }
    } else {
      assert Valid(start.daemon) && start.daemon.networks == d.networks + [Network(d.nextId, "", map[], true)]
        && id == NatToString(d.nextId) by {
        AddedId(d, iface, key);
      }
      FieldDataStarts(ssid, password, auth);
      ShownAddedCount(d.networks, d.nextId, start, iface, ssid, data);
    }
  }

  /** Writing the fields and closing on a network just appended to `nets`
      adds one network shown under the trimmed ssid. */
  lemma ShownAddedCount(nets: seq<Network>, next: nat, start: Run, iface: string, ssid: string, data: Obj)
    requires Valid(start.daemon) && start.daemon.networks == nets + [Network(next, "", map[], true)]
    requires |data| >= 1 && data[0] == ("ssid", Str(ssid)) && KeysDistinct(data)
    requires PlainKeys(data) && ShellSafe(ssid)
    ensures var id := NatToString(next);
      var run := Closing(WriteFields(start, iface, id, data, |data|), iface, id);
      run.result.Ok? ==> CountSsid(Shown(run.daemon.networks), Trim(ssid)) == CountSsid(Shown(nets), Trim(ssid)) + 1
  {
    var key := Trim(ssid);
    var id := NatToString(next);
    var run := Closing(WriteFields(start, iface, id, data, |data|), iface, id);
    var n := Network(next, "", map[], true);
    var base := nets + [n];
    ChainTracks(start, iface, base, |nets|, "", ssid, data);
    if run.result.Ok? {
      ShownTracksCount(run.daemon.networks, base, |nets|, ssid, key);
      ShownSnoc(nets, n, key);
    }
  }

  /** Appending a network adds one to a shown name's count exactly when its
      trimmed name is that name. */
  lemma ShownSnoc(nets: seq<Network>, n: Network, key: string)
    ensures CountSsid(Shown(nets + [n]), key) == CountSsid(Shown(nets), key) + (if Trim(n.ssid) == key then 1 else 0)
  {
    var m := n.(ssid := Trim(n.ssid));
    assert Shown(nets + [n]) == Shown(nets) + [m];
    CountSnoc(Shown(nets), m, key);
  }

  /** Renaming the tracked network changes the count of a shown name by at
      most what the old and the new name contribute. */
  lemma ShownTracksCount(nets: seq<Network>, base: seq<Network>, k: nat, name: string, key: string)
    requires Tracks(nets, base, k, name)
    ensures CountSsid(Shown(nets), key) ==
      CountSsid(Shown(base), key) - (if Trim(base[k].ssid) == key then 1 else 0) + (if Trim(name) == key then 1 else 0)
  {
    var a := Shown(nets);
    var b := Shown(base);
    CountRemove(a, k, key);
    CountRemove(b, k, key);
    CountSameNames(a[..k] + a[k + 1..], b[..k] + b[k + 1..], key);
  }

  /** The corrected exchange keeps the promise for every name free of tabs
      and line breaks, blanks at either end included: it reuses a network
      exactly when one is shown under the trimmed name, and afterwards the
      number shown under that name is unchanged if it was positive and 1
      otherwise. */
  lemma ReconcileTrimmedCount(d: Daemon, iface: string, ssid: string, password: Val, auth: Val)
    requires Valid(d) && ShellSafe(ssid)
    requires forall i :: 0 <= i < |d.networks| ==> Avoids(d.networks[i].ssid, {'\t', '\n'})
    ensures var run := ReconcileTrimmed(d, iface, ssid, password, auth);
      var key := Trim(ssid);
      var before := CountSsid(Shown(d.networks), key);
      run.result.Ok? ==>
        && (Existing(d, iface, key).Some? <==> before > 0)
        && CountSsid(Shown(run.daemon.networks), key) == (if before > 0 then before else 1)
  {
    var key := Trim(ssid);
    var l := Listing(d, iface);
    if l.result.Ok? {
      ShownSpec(d, iface, key);
      if Existing(d, iface, key).Some? {
        TrimmedReuse(d, iface, ssid, password, auth);
      } else {
        TrimmedAdd(d, iface, ssid, password, auth);
      }
    } else {
      var start := Prepared(d, iface, key);
      var data := FieldData(ssid, password, auth);
      assert start == l;
      WriteFieldsStuck(start, iface, ChosenId(d, iface, key), data, 0, |data|);
    }
  }
}
