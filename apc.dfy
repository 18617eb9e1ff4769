/** `lib/apc.js`: the access-point controller that writes the options of a
    `create_ap` service into the service's config file. */
module Apc {
  import opened Common
  import opened Js
  import Text
  import Iw
  import ApCtl
  import Utils

  /** The properties `normalize` sets before the caller's options, in order. */
  const BaseKeys := ["ssid", "wifi_iface", "internet_iface", "share_method", "gateway", "no_virt"]

  /** The object `normalize` assigns the caller's options onto. */
  function Base(ssid: Val, wifi: Val, internet: Val): Obj {
    [("ssid", ssid),
     ("wifi_iface", wifi),
     ("internet_iface", internet),
     ("share_method", Str(if Truthy(internet) then "nat" else "none")),
     ("gateway", Str("10.1.1.1")),
     ("no_virt", Val.Int(1))]
  }

  lemma BaseDistinct(ssid: Val, wifi: Val, internet: Val)
    ensures KeysDistinct(Base(ssid, wifi, internet))
    ensures KeySeq(Base(ssid, wifi, internet)) == BaseKeys
  {
    var b := Base(ssid, wifi, internet);
    assert KeySeq(b) == BaseKeys;
  }

  /** `_.isNil(value) ? '' : value`. */
  function Cleaned(v: Val): Val {
    if IsNil(v) then Str("") else v
  }

  /** Each property under its upper-cased name with nil made `''`, in order. */
  function Upcased(o: Obj): (r: Obj)
    ensures |r| == |o| && forall i :: 0 <= i < |o| ==> r[i] == (Text.Upper(o[i].0), Cleaned(o[i].1))
  {
    seq(|o|, i requires 0 <= i < |o| => (Text.Upper(o[i].0), Cleaned(o[i].1)))
  }

  /** `Object.assign(base, options)` and then `_.transform` into a fresh
      object: a later property whose upper-cased name repeats an earlier
      one overwrites it. */
  function Props(ssid: Val, wifi: Val, internet: Val, options: Obj): Obj {
    BaseDistinct(ssid, wifi, internet);
    Assign([], Upcased(Assign(Base(ssid, wifi, internet), options)))
  }

  function NotAFunction(name: string): string {
    name + ".match is not a function"
  }

  /** `v.match(REG_IFACE_PHY)` followed by `iw.get_dev_by_phy` when it
      matches, for a truthy `v`; `devs` is the `iw dev` listing. */
  function ResolveIface(devs: seq<Iw.Device>, v: Val, name: string): Result<Val, string> {
    if !v.Str? then Err(NotAFunction(name))
    else
      var r := Iw.ResolvePhy(devs, v.s);
      if r.Ok? then Ok(Str(r.value)) else Err(r.error)
  }

  /** `normalize(ssid, options)`: nothing for a falsy ssid; otherwise the
      wifi interface (`phy0` by default) and a given internet interface are
      resolved through the device listing, and the properties are built. */
  function Normalize(ssid: ApCtl.Arg, options: Obj, devs: seq<Iw.Device>): Result<Option<Obj>, string> {
    var args := ApCtl.Arguments(ssid, options);
    if args.None? then Ok(None)
    else
      var (name, opts) := args.value;
      var w := Get(opts, "wifi_iface");
      var wifi := ResolveIface(devs, if Truthy(w) then w else Str("phy0"), "wifi_iface");
      if wifi.Err? then Err(wifi.error)
      else
        var i := Get(opts, "internet_iface");
        var internet := if Truthy(i) then ResolveIface(devs, i, "internet_iface") else Ok(i);
        if internet.Err? then Err(internet.error)
        else Ok(Some(Props(name, wifi.value, internet.value, opts)))
  }

  /** `normalize` gives nothing exactly when its first argument is falsy. */
  lemma NormalizeNothing(ssid: ApCtl.Arg, options: Obj, devs: seq<Iw.Device>)
    ensures Normalize(ssid, options, devs) == Ok(None) <==> (ssid.Name? && !Truthy(ssid.v))
  {
  }

  /** The output names carry no lower-case letter and no value is nil. */
  lemma PropsClean(ssid: Val, wifi: Val, internet: Val, options: Obj)
    ensures forall e :: e in Props(ssid, wifi, internet, options) ==> Utils.NoLower(e.0) && !IsNil(e.1)
  {
    BaseDistinct(ssid, wifi, internet);
    var m := Assign(Base(ssid, wifi, internet), options);
    ApCtl.AssignFrom([], Upcased(m));
    forall e | e in Upcased(m)
      ensures Utils.NoLower(e.0) && !IsNil(e.1)
    {
    }
  }

  lemma BaseUpper()
    ensures Text.Upper("ssid") == "SSID" && Text.Upper("wifi_iface") == "WIFI_IFACE"
    ensures Text.Upper("internet_iface") == "INTERNET_IFACE" && Text.Upper("share_method") == "SHARE_METHOD"
    ensures Text.Upper("gateway") == "GATEWAY" && Text.Upper("no_virt") == "NO_VIRT"
  {
    assert Text.Upper("ssid") == "SSID";
    assert Text.Upper("wifi_iface") == "WIFI_IFACE";
    assert Text.Upper("internet_iface") == "INTERNET_IFACE";
    assert Text.Upper("share_method") == "SHARE_METHOD";
    assert Text.Upper("gateway") == "GATEWAY";
    assert Text.Upper("no_virt") == "NO_VIRT";
  }

  /** Every base property ends up under its upper-case name: the caller's
      value when the caller gave that property, the base value otherwise,
      with nil made `''`.  So a caller's own `wifi_iface` (a `phyN` name,
      say) replaces the interface resolved from it.  This holds when no
      other option of the caller lands on the same upper-case name. */
  lemma PropsGet(ssid: Val, wifi: Val, internet: Val, options: Obj, k: string)
    requires k in BaseKeys
    requires forall j :: 0 <= j < |options| && options[j].0 != k ==> Text.Upper(options[j].0) != Text.Upper(k)
    ensures Get(Props(ssid, wifi, internet, options), Text.Upper(k)) ==
      Cleaned(if LastIn(options, k).Some? then LastIn(options, k).value else Get(Base(ssid, wifi, internet), k))
  {
    var b := Base(ssid, wifi, internet);
    BaseDistinct(ssid, wifi, internet);
    var m := Assign(b, options);
    assert Has(m, k) by {
      AssignKeeps(b, options, k);
    }
    forall j | 0 <= j < |m| && m[j].0 != k
      ensures Text.Upper(m[j].0) != Text.Upper(k)
    {
      ApCtl.AssignFrom(b, options);
      assert m[j] in m;
      if m[j] in b {
        BaseUpper();
      } else {
        var i :| 0 <= i < |options| && options[i] == m[j];
      }
    }
    var j :| 0 <= j < |m| && m[j].0 == k;
    GetAt(m, j);
    var up := Upcased(m);
    forall i | 0 <= i < |up| && i != j
      ensures up[i].0 != up[j].0
    {
      assert m[i].0 != m[j].0;
    }
    AssignGet([], up, Text.Upper(k));
    ApCtl.LastInOnly(up, j);
    AssignGet(b, options, k);
  }

  /** `Object.assign` never drops a property the target had. */
  lemma {:induction false} AssignKeeps(o: Obj, src: Obj, k: string)
    requires KeysDistinct(o) && Has(o, k)
    ensures Has(Assign(o, src), k)
    decreases |src|
  {
    if src != [] {
      PutKeys(o, src[0].0, src[0].1);
      var o' := Put(o, src[0].0, src[0].1);
      assert Has(o', k) by {
        assert k in KeySeq(o');
      }
      AssignKeeps(o', src[1..], k);
    }
  }

  /** No option of the caller lands on the upper-case name `key`. */
  predicate Silent(options: Obj, key: string) {
    forall j :: 0 <= j < |options| ==> Text.Upper(options[j].0) != key
  }

  /** A base property the caller is silent about keeps its base value. */
  lemma SilentGet(ssid: Val, wifi: Val, internet: Val, options: Obj, k: string)
    requires k in BaseKeys && Silent(options, Text.Upper(k))
    ensures Get(Props(ssid, wifi, internet, options), Text.Upper(k)) == Cleaned(Get(Base(ssid, wifi, internet), k))
  {
    assert !Has(options, k) by {
      forall j | 0 <= j < |options|
        ensures options[j].0 != k
      {
      }
    }
    ApCtl.LastInAbsent(options, k);
    PropsGet(ssid, wifi, internet, options, k);
  }

  /** With a caller silent about them, the gateway is `10.1.1.1`, `NO_VIRT`
      is 1 and `SHARE_METHOD` is `nat` exactly when an internet interface is
      set; `WIFI_IFACE` holds the resolved wifi interface. */
  lemma PropsDefaults(ssid: Val, wifi: Val, internet: Val, options: Obj)
    requires Silent(options, "WIFI_IFACE") && Silent(options, "SHARE_METHOD")
    requires Silent(options, "GATEWAY") && Silent(options, "NO_VIRT")
    ensures var p := Props(ssid, wifi, internet, options);
      && Get(p, "GATEWAY") == Str("10.1.1.1")
      && Get(p, "NO_VIRT") == Val.Int(1)
      && (Get(p, "SHARE_METHOD") == Str("nat") <==> Truthy(internet))
      && Get(p, "WIFI_IFACE") == Cleaned(wifi)
  {
    DefaultGateway(ssid, wifi, internet, options);
    DefaultNoVirt(ssid, wifi, internet, options);
    DefaultShareMethod(ssid, wifi, internet, options);
    DefaultWifi(ssid, wifi, internet, options);
  }

  lemma DefaultGateway(ssid: Val, wifi: Val, internet: Val, options: Obj)
    requires Silent(options, "GATEWAY")
    ensures Get(Props(ssid, wifi, internet, options), "GATEWAY") == Str("10.1.1.1")
  {
    assert Text.Upper("gateway") == "GATEWAY";
    SilentGet(ssid, wifi, internet, options, "gateway");
    BaseGet(ssid, wifi, internet);
  }

  lemma DefaultNoVirt(ssid: Val, wifi: Val, internet: Val, options: Obj)
    requires Silent(options, "NO_VIRT")
    ensures Get(Props(ssid, wifi, internet, options), "NO_VIRT") == Val.Int(1)
  {
    assert Text.Upper("no_virt") == "NO_VIRT";
    SilentGet(ssid, wifi, internet, options, "no_virt");
    BaseGet(ssid, wifi, internet);
  }

  lemma DefaultShareMethod(ssid: Val, wifi: Val, internet: Val, options: Obj)
    requires Silent(options, "SHARE_METHOD")
    ensures Get(Props(ssid, wifi, internet, options), "SHARE_METHOD") == Str(if Truthy(internet) then "nat" else "none")
  {
    assert Text.Upper("share_method") == "SHARE_METHOD";
    SilentGet(ssid, wifi, internet, options, "share_method");
    BaseGet(ssid, wifi, internet);
  }

  lemma DefaultWifi(ssid: Val, wifi: Val, internet: Val, options: Obj)
    requires Silent(options, "WIFI_IFACE")
    ensures Get(Props(ssid, wifi, internet, options), "WIFI_IFACE") == Cleaned(wifi)
  {
    assert Text.Upper("wifi_iface") == "WIFI_IFACE";
    SilentGet(ssid, wifi, internet, options, "wifi_iface");
    BaseGet(ssid, wifi, internet);
  }

  lemma BaseGet(ssid: Val, wifi: Val, internet: Val)
    ensures var b := Base(ssid, wifi, internet);
      && Get(b, "wifi_iface") == wifi
      && Get(b, "share_method") == Str(if Truthy(internet) then "nat" else "none")
      && Get(b, "gateway") == Str("10.1.1.1")
      && Get(b, "no_virt") == Val.Int(1)
  {
    var b := Base(ssid, wifi, internet);
    BaseDistinct(ssid, wifi, internet);
    GetAt(b, 1);
    GetAt(b, 3);
    GetAt(b, 4);
    GetAt(b, 5);
  }

  /** The reference `REG_IFACE_PHY` finds in the default `phy0`. */
  lemma DefaultPhy()
    ensures Iw.PhyRef("phy0") == Some("0")
  {
    var s := "phy0";
    var t := s[3..];
    assert s[0..3] == "phy";
    assert t == "0" && t[1..] == [];
    assert Iw.Span(t[1..], Iw.Digit) == 0;
    assert Text.IsDigit(t[0]);
    assert Iw.Span(t, Iw.Digit) == 1;
    assert t[0] != '#' && t[..1] == "0";
    assert Iw.Take(t, Iw.PhyNumber) == Some("0");
    assert Iw.MatchesAt(s, "phy", Iw.PhyNumber, 0);
  }

  /** Without a wifi interface from the caller, `normalize` resolves `phy0`:
      it fails when the listing has no interface for phy 0, and otherwise
      builds the properties on that interface. */
  lemma NormalizeDefaultIface(ssid: string, options: Obj, devs: seq<Iw.Device>)
    requires ssid != [] && !Truthy(Get(options, "wifi_iface"))
    ensures Iw.GetDevByPhy(devs, "0").Err? ==>
      Normalize(ApCtl.Name(Str(ssid)), options, devs) == Err(Iw.NoDevFound("0"))
    ensures Iw.GetDevByPhy(devs, "0").Ok? && !Truthy(Get(options, "internet_iface")) ==>
      Normalize(ApCtl.Name(Str(ssid)), options, devs) ==
        Ok(Some(Props(Str(ssid), Str(Iw.GetDevByPhy(devs, "0").value), Get(options, "internet_iface"), options)))
  {
    DefaultPhy();
  }

  // ---------------------------------------------------------------- configure

  /** The file steps of `configure`.  `unit` is the service's unit file, if
      systemd knows one; `parse` reads a properties file by path; `bundled`
      is the path of the `create_ap.conf` shipped with the package. */
  function ConfigureWith(service: Val, props: Option<Obj>, unit: Option<string>, parse: string -> Obj, bundled: string)
    : Result<ApCtl.Outcome, string>
    requires forall path :: KeysDistinct(parse(path))
  {
    if unit.None? then Err(ApCtl.NotInstalled(service))
    else
      var path := ApCtl.ConfigPath(unit.value);
      if path.None? then Err(ApCtl.NoConfigFlag(service))
      else if props.None? then Ok(ApCtl.Read(parse(path.value)))
      else Ok(ApCtl.Written(path.value, Assign(parse(bundled), ApCtl.UpperKeys(props.value))))
  }

  /** `configure` fails without a unit file or a `--config` argument in it;
      without properties it reads the config file; with properties it writes
      to the config file the bundled defaults overridden by every property,
      whatever that file held before. */
  lemma ConfigureSpec(service: Val, props: Option<Obj>, unit: Option<string>, parse: string -> Obj, bundled: string, k: string)
    requires forall path :: KeysDistinct(parse(path))
    requires props.Some? ==> KeysDistinct(props.value) && forall i :: 0 <= i < |props.value| ==> Utils.NoLower(props.value[i].0)
    ensures var r := ConfigureWith(service, props, unit, parse, bundled);
      && (unit.None? ==> r == Err(ApCtl.NotInstalled(service)))
      && (unit.Some? && ApCtl.ConfigPath(unit.value).None? ==> r == Err(ApCtl.NoConfigFlag(service)))
      && (r.Ok? <==> unit.Some? && ApCtl.ConfigPath(unit.value).Some?)
      && (r.Ok? && props.None? ==> r.value == ApCtl.Read(parse(ApCtl.ConfigPath(unit.value).value)))
      && (r.Ok? && props.Some? ==>
            && r.value.Written? && r.value.path == ApCtl.ConfigPath(unit.value).value
            && Get(r.value.data, k) == if Has(props.value, k) then Get(props.value, k) else Get(parse(bundled), k))
  {
    if props.Some? && unit.Some? && ApCtl.ConfigPath(unit.value).Some? {
      var p := props.value;
      var up := ApCtl.UpperKeys(p);
      assert up == p by {
        forall i | 0 <= i < |p|
          ensures up[i] == p[i]
        {
          ApCtl.NoLowerUpper(p[i].0);
        }
      }
      AssignGet(parse(bundled), p, k);
      if Has(p, k) {
        var j :| 0 <= j < |p| && p[j].0 == k;
        ApCtl.LastInOnly(p, j);
        GetAt(p, j);
      } else {
        ApCtl.LastInAbsent(p, k);
      }
    }
  }

  /** What `normalize` produces is fit for writing: distinct upper-case names. */
  lemma NormalizedWritable(ssid: ApCtl.Arg, options: Obj, devs: seq<Iw.Device>)
    requires Normalize(ssid, options, devs).Ok? && Normalize(ssid, options, devs).value.Some?
    ensures var p := Normalize(ssid, options, devs).value.value;
      KeysDistinct(p) && forall i :: 0 <= i < |p| ==> Utils.NoLower(p[i].0)
  {
    var (name, opts) := ApCtl.Arguments(ssid, options).value;
    var w := Get(opts, "wifi_iface");
    var wifi := ResolveIface(devs, if Truthy(w) then w else Str("phy0"), "wifi_iface");
    var i := Get(opts, "internet_iface");
    var internet := if Truthy(i) then ResolveIface(devs, i, "internet_iface") else Ok(i);
    var p := Props(name, wifi.value, internet.value, opts);
    PropsClean(name, wifi.value, internet.value, opts);
    assert forall i :: 0 <= i < |p| ==> p[i] in p;
  }

  // ---------------------------------------------------------------- the class

  /** An `APC` instance: the name of the service it controls. */
  class Controller {
    const serviceName: Val

    /** `new APC(serviceName = 'create_ap')`: only a missing argument takes
        the default. */
    constructor(serviceName: Val)
      ensures this.serviceName == if serviceName == Undefined then Str(ApCtl.DefaultServiceName) else serviceName
    {
      this.serviceName := if serviceName == Undefined then Str(ApCtl.DefaultServiceName) else serviceName;
    }

    /** `configure(ssid, options)`: `normalize` first, whose failure ends the
        call, then the file steps under this instance's service name. */
    method Configure(ssid: ApCtl.Arg, options: Obj, devs: seq<Iw.Device>, unit: Option<string>,
                     parse: string -> Obj, bundled: string)
      returns (r: Result<ApCtl.Outcome, string>)
      requires forall path :: KeysDistinct(parse(path))
      ensures Normalize(ssid, options, devs).Err? ==> r == Err(Normalize(ssid, options, devs).error)
      ensures Normalize(ssid, options, devs).Ok? ==>
        r == ConfigureWith(serviceName, Normalize(ssid, options, devs).value, unit, parse, bundled)
    {
      var props := Normalize(ssid, options, devs);
      if props.Err? {
        return Err(props.error);
      }
      r := ConfigureWith(serviceName, props.value, unit, parse, bundled);
    }
  }
}
