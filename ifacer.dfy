/** `lib/ifacer.js`: resolving a hardware token (`onboard`, a bus prefix)
    to an interface name over the network entries `lshw` lists. */
module Ifacer {
  import opened Common
  import opened Text

  /** One `lshw -c network` entry, as far as `resolve` reads it:
      `capabilities.wireless`, `businfo` and `logicalname`. */
  datatype Hardware = Hardware(wireless: Option<string>, businfo: Option<string>, logicalname: Option<string>)

  /** The filter: `n.capabilities.wireless === 'Wireless-LAN'`. */
  predicate WirelessLan(n: Hardware) {
    n.wireless == Some("Wireless-LAN")
  }

  /** `businfo`, with a missing one read as `''` (as `_.startsWith` does). */
  function BusInfo(n: Hardware): string {
    if n.businfo.Some? then n.businfo.value else ""
  }

  /** The find test: `onboard` wants an entry without bus information, any
      other token an entry whose bus information starts with it. */
  predicate Picks(iface: string, n: Hardware) {
    if iface == "onboard" then BusInfo(n) == "" else StartsWith(BusInfo(n), iface)
  }

  /** `.filter(WirelessLan)`. */
  function Candidates(hw: seq<Hardware>): seq<Hardware> {
    if hw == [] then []
    else (if WirelessLan(hw[0]) then [hw[0]] else []) + Candidates(hw[1..])
  }

  /** `_.find(networks, Picks)`. */
  function FirstPicked(iface: string, ns: seq<Hardware>): Option<Hardware> {
    if ns == [] then None
    else if Picks(iface, ns[0]) then Some(ns[0])
    else FirstPicked(iface, ns[1..])
  }

  function CannotResolve(iface: string): string {
    "Can not resolve iface \"" + iface + "\""
  }

  /** A token `resolve` returns without looking at the hardware: a missing or
      empty one, or a name that already starts with `wlan`. */
  predicate PassesThrough(iface: Option<string>) {
    iface.None? || iface.value == "" || StartsWith(iface.value, "wlan")
  }

  /** `resolve(iface)` over the hardware list `hw`. */
  function Resolve(iface: Option<string>, hw: seq<Hardware>): Result<Option<string>, string> {
    if PassesThrough(iface) then Ok(iface)
    else
      var found := FirstPicked(iface.value, Candidates(hw));
      if found.Some? then Ok(found.value.logicalname) else Err(CannotResolve(iface.value))
  }

  /** The first entry of `hw` that is a wireless LAN and that `iface` picks. */
  predicate FirstMatchAt(iface: string, hw: seq<Hardware>, i: nat) {
    && i < |hw| && WirelessLan(hw[i]) && Picks(iface, hw[i])
    && forall j :: 0 <= j < i ==> !(WirelessLan(hw[j]) && Picks(iface, hw[j]))
  }

  /** Filtering then finding looks at the entries one by one. */
  lemma FindStep(iface: string, hw: seq<Hardware>)
    requires hw != []
    ensures FirstPicked(iface, Candidates(hw)) ==
      if WirelessLan(hw[0]) && Picks(iface, hw[0]) then Some(hw[0]) else FirstPicked(iface, Candidates(hw[1..]))
  {
    var rest := Candidates(hw[1..]);
    if WirelessLan(hw[0]) {
      assert Candidates(hw) == [hw[0]] + rest;
      assert ([hw[0]] + rest)[1..] == rest;
    } else {
      assert Candidates(hw) == [] + rest == rest;
    }
  }

  lemma {:induction false} FirstPickedNone(iface: string, hw: seq<Hardware>)
    ensures FirstPicked(iface, Candidates(hw)).None? <==>
      forall j :: 0 <= j < |hw| ==> !(WirelessLan(hw[j]) && Picks(iface, hw[j]))
  {
    if hw != [] {
      FindStep(iface, hw);
      FirstPickedNone(iface, hw[1..]);
      assert forall j :: 1 <= j < |hw| ==> hw[j] == hw[1..][j - 1];
    }
  }

  lemma {:induction false} FirstPickedAt(iface: string, hw: seq<Hardware>) returns (i: nat)
    requires FirstPicked(iface, Candidates(hw)).Some?
    ensures FirstMatchAt(iface, hw, i) && FirstPicked(iface, Candidates(hw)) == Some(hw[i])
  {
    assert hw != [];
    FindStep(iface, hw);
    if WirelessLan(hw[0]) && Picks(iface, hw[0]) {
      i := 0;
    } else {
      var k := FirstPickedAt(iface, hw[1..]);
      i := k + 1;
      assert forall j :: 1 <= j < i ==> hw[j] == hw[1..][j - 1];
    }
  }

  /** A token that passes through comes back as it is, whatever the hardware. */
  lemma ResolvePassThrough(iface: Option<string>, hw: seq<Hardware>, hw': seq<Hardware>)
    requires PassesThrough(iface)
    ensures Resolve(iface, hw) == Resolve(iface, hw') == Ok(iface)
  {
  }

  /** Any other token resolves to the `logicalname` of the first wireless-LAN
      entry it picks, and fails with a message naming it when none does. */
  lemma ResolveSpec(iface: string, hw: seq<Hardware>)
    requires !PassesThrough(Some(iface))
    ensures Resolve(Some(iface), hw).Ok? ==>
      exists i: nat :: FirstMatchAt(iface, hw, i) && Resolve(Some(iface), hw) == Ok(hw[i].logicalname)
    ensures Resolve(Some(iface), hw).Err? <==>
      forall j :: 0 <= j < |hw| ==> !(WirelessLan(hw[j]) && Picks(iface, hw[j]))
    ensures Resolve(Some(iface), hw).Err? ==> Resolve(Some(iface), hw).error == CannotResolve(iface)
  {
    FirstPickedNone(iface, hw);
    if FirstPicked(iface, Candidates(hw)).Some? {
      var i := FirstPickedAt(iface, hw);
    }
  }
}
