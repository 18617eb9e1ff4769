/** The wpa_supplicant daemon on the far side of `wpa_cli`, as the client
    sees it, behind the shell that `exec` runs the command line in.  It is not part of the repository: it is the external party whose
    replies the client parses, modelled just far enough to give those replies
    a meaning — a table of configured networks that `add_network`,
    `set_network`, `enable_network`, `select_network`, `remove_network` and
    `save_config` change, and canned replies for `status` and the scan
    commands.  Commands named in `refused` are answered with `FAIL`.  The
    arguments reach the daemon as the shell reads them from the line. */
module Supplicant {
  import opened Common
  import opened Text
  import Shell

  /** One configured network.  `settings` holds each `set_network` value as
      the daemon received it; `ssid` is the decoded network name. */
  datatype Network = Network(id: nat, ssid: string, settings: map<string, string>, disabled: bool)

  datatype Daemon = Daemon(
    networks: seq<Network>,   // configured networks, in the order list_networks shows them
    nextId: nat,              // the id the next add_network hands out
    saved: seq<Network>,      // the table save_config last persisted
    refused: set<string>,     // commands answered with FAIL
    statusReply: string,      // what `status` prints
    scanAck: string,          // what `scan` prints
    scanReply: string)        // what `scan_result` prints

  /** Ids are unique and below the next id to hand out. */
  predicate Valid(d: Daemon) {
    && (forall i :: 0 <= i < |d.networks| ==> d.networks[i].id < d.nextId)
    && (forall i, j :: 0 <= i < j < |d.networks| ==> d.networks[i].id != d.networks[j].id)
  }

  // ---------------------------------------------------------------- list_networks

  const ListHeader := "network id / ssid / bssid / flags"

  /** The flags column: present only for a disabled network. */
  function Flags(n: Network): Option<string> {
    if n.disabled then Some("[DISABLED]") else None
  }

  function RowFields(n: Network): seq<string> {
    [NatToString(n.id), n.ssid, "any"] + (if n.disabled then ["[DISABLED]"] else [])
  }

  function RowLine(n: Network): string {
    Join(RowFields(n), "\t")
  }

  function RowLines(nets: seq<Network>): (r: seq<string>)
    ensures |r| == |nets| && forall i :: 0 <= i < |nets| ==> r[i] == RowLine(nets[i])
  {
    seq(|nets|, i requires 0 <= i < |nets| => RowLine(nets[i]))
  }

  /** The `list_networks` table: a header line, then one tab-separated row per network. */
  function RenderNetworks(nets: seq<Network>): string {
    Join([ListHeader] + RowLines(nets), "\n")
  }

  // ---------------------------------------------------------------- arguments

  /** A network id argument: a non-empty run of digits. */
  function IdArg(s: string): Option<nat> {
    if s != "" && AllDigits(s) then Some(DigitsValue(s)) else None
  }

  /** Position of the network with id `id`, if any. */
  function IndexOfId(nets: seq<Network>, id: nat): (r: Option<nat>)
    ensures r.Some? ==> r.value < |nets| && nets[r.value].id == id
    ensures r.None? ==> forall i :: 0 <= i < |nets| ==> nets[i].id != id
  {
    if nets == [] then None
    else if nets[0].id == id then Some(0)
    else
      var r := IndexOfId(nets[1..], id);
      if r.Some? then Some(r.value + 1) else None
  }

  /** The arguments as the daemon receives them: the words the shell reads
      from the client's arguments joined by spaces, or `None` when the shell
      finds a quote left open and runs nothing. */
  function Heard(args: seq<string>): Option<seq<string>> {
    Shell.Words(Join(args, " "))
  }

  /** How the daemon reads a setting: a value in double quotes is the text
      between them; any other value is taken as it is. */
  function Unquote(value: string): string {
    if |value| >= 2 && value[0] == '"' && value[|value| - 1] == '"' then value[1..|value| - 1] else value
  }

  /** The target network of a one-id command, if the id names one. */
  function Target(d: Daemon, args: seq<string>): Option<nat> {
    if |args| >= 1 && IdArg(args[0]).Some? then IndexOfId(d.networks, IdArg(args[0]).value) else None
  }

  function SetField(n: Network, name: string, value: string): Network {
    n.(settings := n.settings[name := value],
       ssid := if name == "ssid" then Unquote(value) else n.ssid)
  }

  function EnableAt(nets: seq<Network>, k: nat): (r: seq<Network>)
    requires k < |nets|
    ensures |r| == |nets|
  {
    nets[k := nets[k].(disabled := false)]
  }

  /** `select_network k`: `k` is enabled and every other network disabled. */
  function SelectAt(nets: seq<Network>, k: nat): (r: seq<Network>)
    requires k < |nets|
    ensures |r| == |nets|
  {
    seq(|nets|, i requires 0 <= i < |nets| => nets[i].(disabled := i != k))
  }

  /** The daemon's state after one command line: unchanged when the shell
      cannot read it, otherwise the command applied to the words heard. */
  function Next(d: Daemon, cmd: string, args: seq<string>): Daemon {
    var heard := Heard(args);
    if heard.None? then d else Apply(d, cmd, heard.value)
  }

  /** The daemon's state after one command.  Only `add_network`,
      `save_config`, `reconfigure` and the commands naming an existing
      network change anything, and nothing changes for a refused command. */
  function Apply(d: Daemon, cmd: string, args: seq<string>): Daemon {
    if cmd in d.refused then d
    else if cmd == "add_network" then
      d.(networks := d.networks + [Network(d.nextId, "", map[], true)], nextId := d.nextId + 1)
    else if cmd == "save_config" then d.(saved := d.networks)
    else if cmd == "reconfigure" then d.(networks := d.saved)
    else
      var t := Target(d, args);
      if t.None? then d
      else if cmd == "remove_network" then d.(networks := d.networks[..t.value] + d.networks[t.value + 1..])
      else d.(networks := Edit(d.networks, t.value, cmd, args))
  }

  /** The table after a command that edits network `k` in place. */
  function Edit(nets: seq<Network>, k: nat, cmd: string, args: seq<string>): (r: seq<Network>)
    requires k < |nets|
    ensures |r| == |nets| && forall i :: 0 <= i < |nets| ==> r[i].id == nets[i].id
  {
    if cmd == "set_network" && |args| == 3 then nets[k := SetField(nets[k], args[1], args[2])]
    else if cmd == "enable_network" then EnableAt(nets, k)
    else if cmd == "disable_network" then nets[k := nets[k].(disabled := true)]
    else if cmd == "select_network" then SelectAt(nets, k)
    else nets
  }

  /** An in-place edit renames nothing but its target, and renames that one
      only by a `set_network k ssid value`. */
  lemma EditNames(nets: seq<Network>, k: nat, cmd: string, args: seq<string>)
    requires k < |nets|
    ensures forall i :: 0 <= i < |nets| && i != k ==> Edit(nets, k, cmd, args)[i].ssid == nets[i].ssid
    ensures Edit(nets, k, cmd, args)[k].ssid ==
      if cmd == "set_network" && |args| == 3 && args[1] == "ssid" then Unquote(args[2]) else nets[k].ssid
  {
  }

  /** What comes back for one command line.  A line the shell cannot read
      fails like a refused command. */
  function Output(d: Daemon, cmd: string, args: seq<string>): string {
    var heard := Heard(args);
    if heard.None? then "FAIL" else Answer(d, cmd, heard.value)
  }

  /** What the daemon prints for one command. */
  function Answer(d: Daemon, cmd: string, args: seq<string>): string {
    if cmd in d.refused then "FAIL"
    else if cmd == "status" then d.statusReply
    else if cmd == "scan" then d.scanAck
    else if cmd == "scan_result" then d.scanReply
    else if cmd == "list_networks" then RenderNetworks(d.networks)
    else if cmd == "add_network" then NatToString(d.nextId)
    else if cmd in {"save_config", "reconfigure", "disconnect"} then "OK"
    else
      var t := Target(d, args);
      if t.None? then "FAIL"
      else if cmd == "set_network" && |args| == 3 then "OK"
      else if cmd == "get_network" && |args| == 2 then
        var n := d.networks[t.value];
        if args[1] in n.settings then n.settings[args[1]] else "FAIL"
      else if cmd in {"enable_network", "disable_network", "select_network", "remove_network"} then "OK"
      else "UNKNOWN COMMAND"
  }

  /** The reply and next state of the daemon for one command. */
  function Respond(d: Daemon, cmd: string, args: seq<string>): (Daemon, string) {
    (Next(d, cmd, args), Output(d, cmd, args))
  }

  /** A table whose ids are those of a valid table, position by position, is valid. */
  lemma SameIdsValid(d: Daemon, nets: seq<Network>)
    requires Valid(d) && |nets| == |d.networks|
    requires forall i :: 0 <= i < |nets| ==> nets[i].id == d.networks[i].id
    ensures Valid(d.(networks := nets))
  {
  }

  /** Every command keeps ids unique and below the next id, both in the live
      table and in the saved one. */
  lemma NextValid(d: Daemon, cmd: string, args: seq<string>)
    requires Valid(d) && Valid(d.(networks := d.saved))
    ensures Valid(Next(d, cmd, args))
    ensures Valid(Next(d, cmd, args).(networks := Next(d, cmd, args).saved))
  {
    var d' := Next(d, cmd, args);
    NextTableValid(d, cmd, args);
    assert d'.nextId >= d.nextId && (d'.saved == d.saved || d'.saved == d.networks);
    if d'.saved == d.saved {
      RaiseValid(d.(networks := d.saved), d'.(networks := d'.saved));
    } else {
      RaiseValid(d, d'.(networks := d'.saved));
    }
  }

  /** Validity survives a larger next id. */
  lemma RaiseValid(d: Daemon, e: Daemon)
    requires Valid(d) && e.networks == d.networks && e.nextId >= d.nextId
    ensures Valid(e)
  {
  }

  /** Every command keeps the live table's ids unique and below the next id. */
  lemma NextTableValid(d: Daemon, cmd: string, args: seq<string>)
    requires Valid(d) && Valid(d.(networks := d.saved))
    ensures Valid(Next(d, cmd, args))
  {
    if Heard(args).Some? {
      ApplyValid(d, cmd, Heard(args).value);
    }
  }

  /** Every command the daemon hears keeps the live table valid. */
  lemma ApplyValid(d: Daemon, cmd: string, args: seq<string>)
    requires Valid(d) && Valid(d.(networks := d.saved))
    ensures Valid(Apply(d, cmd, args))
  {
    var d' := Apply(d, cmd, args);
    var t := Target(d, args);
    if cmd in d.refused || cmd == "save_config" {
      assert d'.networks == d.networks && d'.nextId == d.nextId;
    } else if cmd == "add_network" {
      assert d' == d.(networks := d.networks + [Network(d.nextId, "", map[], true)], nextId := d.nextId + 1);
      AppendValid(d);
    } else if cmd == "reconfigure" {
      assert d' == d.(networks := d.saved);
    } else if t.None? {
      assert d' == d;
    } else if cmd == "remove_network" {
      assert d' == d.(networks := d.networks[..t.value] + d.networks[t.value + 1..]);
      RemoveValid(d, t.value);
    } else {
      var nets := Edit(d.networks, t.value, cmd, args);
      assert d' == d.(networks := nets);
      SameIdsValid(d, nets);
    }
  }

  /** `add_network` keeps the table valid. */
  lemma AppendValid(d: Daemon)
    requires Valid(d)
    ensures Valid(d.(networks := d.networks + [Network(d.nextId, "", map[], true)], nextId := d.nextId + 1))
  {
    var nets := d.networks + [Network(d.nextId, "", map[], true)];
    forall i | 0 <= i < |d.networks|
      ensures nets[i] == d.networks[i]
    {
    }
  }

  /** `remove_network` keeps the table valid. */
  lemma RemoveValid(d: Daemon, k: nat)
    requires Valid(d) && k < |d.networks|
    ensures Valid(d.(networks := d.networks[..k] + d.networks[k + 1..]))
  {
    var nets := d.networks[..k] + d.networks[k + 1..];
    forall i | 0 <= i < |nets|
      ensures nets[i] == d.networks[if i < k then i else i + 1]
    {
    }
  }

  // ---------------------------------------------------------------- the words heard

  /** No arguments: nothing heard, and the shell has nothing to object to. */
  lemma HeardNone()
    ensures Heard([]) == Some([])
  {
    Shell.NoWords();
  }

  /** A plain first argument is heard as itself, in front of what the rest
      is heard as. */
  lemma HeardCons(a: string, rest: seq<string>)
    requires Shell.PlainWord(a)
    ensures Heard([a] + rest) == if Heard(rest).Some? then Some([a] + Heard(rest).value) else None
  {
    if rest == [] {
      assert Join([a] + rest, " ") == a && [a] + [] == [a];
      Shell.PlainAlone(a);
      HeardNone();
    } else {
      assert Join([a] + rest, " ") == a + " " + Join(rest, " ") by {
        assert ([a] + rest)[1..] == rest;
      }
      Shell.WordsAfter(a, Join(rest, " "));
    }
  }

  /** A printed id is a plain word. */
  lemma IdPlain(n: nat)
    ensures Shell.PlainWord(NatToString(n))
  {
  }

  /** A command on one printed id is heard with exactly that id. */
  lemma HeardId(n: nat)
    ensures Heard([NatToString(n)]) == Some([NatToString(n)])
  {
    IdPlain(n);
    HeardCons(NatToString(n), []);
    HeardNone();
    assert [NatToString(n)] + [] == [NatToString(n)];
  }

  /** Number of networks named `ssid`. */
  function CountSsid(nets: seq<Network>, ssid: string): nat {
    if nets == [] then 0 else (if nets[0].ssid == ssid then 1 else 0) + CountSsid(nets[1..], ssid)
  }

  /** Appending a network adds one exactly when it carries the name. */
  lemma {:induction false} CountSnoc(nets: seq<Network>, n: Network, ssid: string)
    ensures CountSsid(nets + [n], ssid) == CountSsid(nets, ssid) + (if n.ssid == ssid then 1 else 0)
  {
    if nets != [] {
      assert (nets + [n])[1..] == nets[1..] + [n];
      CountSnoc(nets[1..], n, ssid);
    }
  }

  /** Counting splits over a concatenation. */
  lemma {:induction false} CountConcat(a: seq<Network>, b: seq<Network>, ssid: string)
    ensures CountSsid(a + b, ssid) == CountSsid(a, ssid) + CountSsid(b, ssid)
  {
    if a != [] {
      assert (a + b)[1..] == a[1..] + b;
      CountConcat(a[1..], b, ssid);
    } else {
      assert a + b == b;
    }
  }

  /** Removing position `k` takes its network out of the count. */
  lemma CountRemove(nets: seq<Network>, k: nat, ssid: string)
    requires k < |nets|
    ensures CountSsid(nets[..k] + nets[k + 1..], ssid) == CountSsid(nets, ssid) - (if nets[k].ssid == ssid then 1 else 0)
  {
    assert nets == nets[..k] + [nets[k]] + nets[k + 1..];
    CountConcat(nets[..k] + [nets[k]], nets[k + 1..], ssid);
    CountConcat(nets[..k], [nets[k]], ssid);
    CountConcat(nets[..k], nets[k + 1..], ssid);
  }

  /** The count depends only on the names, position by position. */
  lemma {:induction false} CountSameNames(a: seq<Network>, b: seq<Network>, ssid: string)
    requires |a| == |b| && forall i :: 0 <= i < |a| ==> a[i].ssid == b[i].ssid
    ensures CountSsid(a, ssid) == CountSsid(b, ssid)
  {
    if a != [] {
      CountSameNames(a[1..], b[1..], ssid);
    }
  }

  /** Some network carries the name exactly when the count is positive. */
  lemma {:induction false} CountPositive(nets: seq<Network>, ssid: string)
    ensures CountSsid(nets, ssid) > 0 <==> exists i :: 0 <= i < |nets| && nets[i].ssid == ssid
  {
    if nets != [] {
      CountPositive(nets[1..], ssid);
      if nets[0].ssid != ssid && exists i :: 0 <= i < |nets| && nets[i].ssid == ssid {
        var i :| 0 <= i < |nets| && nets[i].ssid == ssid;
        assert nets[1..][i - 1].ssid == ssid;
      }
    }
  }
}
