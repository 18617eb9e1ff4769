/** lib/apctl.js: option handling for the `create_ap` service.  `normalize`
    merges the caller's options over a module-wide table of defaults — which
    it overwrites in place, so that every later call starts from the previous
    call's result — and turns the merged object into the upper-case
    `KEY=value` table that the service's config file holds.  The module also
    keeps the service name, and reads the config file's path off the
    service's unit file. */
module ApCtl {
  import opened Common
  import opened Text
  import opened Js
  import Utils

  const DefaultServiceName := "create_ap"

  /** `DEFAULTS`, in declaration order (written in four runs of seven). */
  const Defaults: Obj := DefaultsA + DefaultsB + DefaultsC + DefaultsD

  const DefaultsA: Obj := [
    ("channel", Str("default")),
    ("gateway", Str("10.1.1.1")),
    ("wpa_version", Val.Int(2)),
    ("etc_hosts", Bool(false)),
    ("dhcp_dns", Str("gateway")),
    ("dns", Bool(true)),
    ("dnsmasq", Bool(true))]

  const DefaultsB: Obj := [
    ("hidden", Bool(false)),
    ("mac_filter", Bool(false)),
    ("mac_filter_accept", Str("/etc/hostapd/hostapd.accept")),
    ("isolate_clients", Bool(false)),
    ("share_method", Str("nat")),
    ("ieee80211n", Bool(false)),
    ("ieee80211ac", Bool(false))]

  const DefaultsC: Obj := [
    ("ht_capab", Str("[HT40+]")),
    ("vht_capab", Str("")),
    ("driver", Str("nl80211")),
    ("virt", Bool(true)),
    ("country", Str("")),
    ("freq_band", Str("2.4")),
    ("new_macaddr", Str(""))]

  const DefaultsD: Obj := [
    ("daemonize", Bool(false)),
    ("haveged", Bool(true)),
    ("iface", Str("wlan0")),
    ("ifaceInternet", Str("eth0")),
    ("ssid", Str("MyAccessPoint")),
    ("passphrase", Str("12345678")),
    ("use_psk", Bool(false))]

  /** `PROPS_PRE_NO`: options that `create_ap` spells as a negated `NO_` flag. */
  const PreNo := ["dns", "dnsmasq", "virt", "haveged"]

  // ---------------------------------------------------------------- arguments

  /** The first argument of `normalize`: an ssid value, or an options object
      passed in its place. */
  datatype Arg = Name(v: Val) | Options(o: Obj)

  /** The ssid and options `normalize` goes on with, or `None` when it
      returns nothing.  A truthy ssid that is not a string is taken as the
      options object; a number or boolean has no properties of its own. */
  function Arguments(ssid: Arg, options: Obj): Option<(Val, Obj)> {
    match ssid
    case Name(v) =>
      if !Truthy(v) then None
      else if v.Str? then Some((v, options))
      else Some((Null, []))
    case Options(o) => Some((Null, o))
  }

  /** The object merged over the defaults before the caller's options. */
  function Base(ssid: Val, internet: Val): Obj {
    [("ssid", ssid),
     ("ifaceInternet", internet),
     ("share_method", Str(if Truthy(internet) then "nat" else "none")),
     ("virt", Bool(false))]
  }

  /** `Object.assign(defaults, base, options)`: the new defaults. */
  function Merge(defaults: Obj, ssid: Val, options: Obj): (r: Obj)
    requires KeysDistinct(defaults)
    ensures KeysDistinct(r)
  {
    Assign(Assign(defaults, Base(ssid, Get(options, "ifaceInternet"))), options)
  }

  /** Every property of the merged object is the caller's if the caller gave
      it, else the base value if there is one, else the old default. */
  lemma MergeGet(defaults: Obj, ssid: Val, options: Obj, k: string)
    requires KeysDistinct(defaults)
    ensures var base := Base(ssid, Get(options, "ifaceInternet"));
      Get(Merge(defaults, ssid, options), k) ==
        if LastIn(options, k).Some? then LastIn(options, k).value
        else if LastIn(base, k).Some? then LastIn(base, k).value
        else Get(defaults, k)
  {
    var base := Base(ssid, Get(options, "ifaceInternet"));
    AssignGet(Assign(defaults, base), options, k);
    AssignGet(defaults, base, k);
  }

  /** `share_method` is `nat` exactly when an internet interface is given,
      and `virt` is switched off, unless the caller sets them. */
  lemma MergeShareMethod(defaults: Obj, ssid: Val, options: Obj)
    requires KeysDistinct(defaults)
    ensures !Has(options, "share_method") ==>
      Get(Merge(defaults, ssid, options), "share_method") ==
        Str(if Truthy(Get(options, "ifaceInternet")) then "nat" else "none")
    ensures !Has(options, "virt") ==> Get(Merge(defaults, ssid, options), "virt") == Bool(false)
    ensures !Has(options, "ssid") ==> Get(Merge(defaults, ssid, options), "ssid") == ssid
  {
    var base := Base(ssid, Get(options, "ifaceInternet"));
    if !Has(options, "share_method") {
      MergeBaseKey(defaults, ssid, options, 2);
    }
    if !Has(options, "virt") {
      MergeBaseKey(defaults, ssid, options, 3);
    }
    if !Has(options, "ssid") {
      MergeBaseKey(defaults, ssid, options, 0);
    }
  }

  /** A base property the caller does not set keeps its base value. */
  lemma MergeBaseKey(defaults: Obj, ssid: Val, options: Obj, i: nat)
    requires KeysDistinct(defaults) && i < 4
    requires !Has(options, Base(ssid, Get(options, "ifaceInternet"))[i].0)
    ensures var base := Base(ssid, Get(options, "ifaceInternet"));
      Get(Merge(defaults, ssid, options), base[i].0) == base[i].1
  {
    var base := Base(ssid, Get(options, "ifaceInternet"));
    var k := base[i].0;
    assert LastIn(options, k).None? by { LastInAbsent(options, k); }
    assert LastIn(base, k) == Some(base[i].1) by { LastInOnly(base, i); }
    MergeGet(defaults, ssid, options, k);
  }

  /** The defaults are shared: an option one call sets, outside the four
      base keys, is what the next call starts from when it does not set it. */
  lemma MergeLeaks(defaults: Obj, ssid1: Val, options1: Obj, ssid2: Val, options2: Obj, k: string)
    requires KeysDistinct(defaults)
    requires k !in ["ssid", "ifaceInternet", "share_method", "virt"]
    requires LastIn(options1, k).Some? && !Has(options2, k)
    ensures Get(Merge(Merge(defaults, ssid1, options1), ssid2, options2), k) == LastIn(options1, k).value
  {
    var m1 := Merge(defaults, ssid1, options1);
    MergeGet(defaults, ssid1, options1, k);
    BaseOthers(ssid1, Get(options1, "ifaceInternet"), k);
    assert Get(m1, k) == LastIn(options1, k).value;
    MergeGet(m1, ssid2, options2, k);
    BaseOthers(ssid2, Get(options2, "ifaceInternet"), k);
    LastInAbsent(options2, k);
  }

  /** The base object mentions only its four names. */
  lemma BaseOthers(ssid: Val, internet: Val, k: string)
    requires k !in ["ssid", "ifaceInternet", "share_method", "virt"]
    ensures LastIn(Base(ssid, internet), k).None?
  {
    var b := Base(ssid, internet);
    assert KeySeq(b) == ["ssid", "ifaceInternet", "share_method", "virt"];
    LastInAbsent(b, k);
  }

  lemma {:induction false} LastInAbsent(o: Obj, k: string)
    requires !Has(o, k)
    ensures LastIn(o, k).None?
  {
    if o != [] {
      assert KeySeq(o) == [o[0].0] + KeySeq(o[1..]);
      LastInAbsent(o[1..], k);
    }
  }

  // ---------------------------------------------------------------- transform

  /** The property name written to the config file for option `k`. */
  function RenamedKey(k: string): string {
    var k1 := if k in PreNo then "no_" + k else k;
    Upper(if k1 == "iface" then "wifi_iface" else if k1 == "ifaceInternet" then "internet_iface" else k1)
  }

  /** The value written for option `k` holding `v`. */
  function RenamedValue(k: string, v: Val): Val {
    var v1 := if k in PreNo then Bool(!Truthy(v)) else v;
    var v2 := if v1.Bool? then Val.Int(if v1.b then 1 else 0) else v1;
    if IsNil(v2) then Str("") else v2
  }

  /** One output entry per merged property, in order. */
  function Renaming(o: Obj): (r: Obj)
    ensures |r| == |o| && forall i :: 0 <= i < |o| ==> r[i] == (RenamedKey(o[i].0), RenamedValue(o[i].0, o[i].1))
  {
    seq(|o|, i requires 0 <= i < |o| => (RenamedKey(o[i].0), RenamedValue(o[i].0, o[i].1)))
  }

  /** The `_.transform` step: every entry is assigned into a fresh object, so
      a later entry with the same output name overwrites an earlier one. */
  function Transform(o: Obj): (r: Obj)
    ensures KeysDistinct(r)
  {
    Assign([], Renaming(o))
  }

  /** What one option becomes: the four `PROPS_PRE_NO` names turn into
      `NO_<NAME>` carrying the negated truth value as 1/0; `iface` and
      `ifaceInternet` become `WIFI_IFACE` and `INTERNET_IFACE`; every other
      name is upper-cased; a boolean becomes 1/0, `null`/`undefined` the
      empty string, and any other value stays as it is. */
  lemma RenamedEntry(k: string, v: Val)
    ensures k in PreNo ==> RenamedKey(k) == "NO_" + Upper(k) && RenamedValue(k, v) == Val.Int(if Truthy(v) then 0 else 1)
    ensures k == "iface" ==> RenamedKey(k) == "WIFI_IFACE"
    ensures k == "ifaceInternet" ==> RenamedKey(k) == "INTERNET_IFACE"
    ensures k !in PreNo && k != "iface" && k != "ifaceInternet" ==> RenamedKey(k) == Upper(k)
    ensures k !in PreNo ==>
      RenamedValue(k, v) == (if v.Bool? then Val.Int(if v.b then 1 else 0) else if IsNil(v) then Str("") else v)
  {
    if k in PreNo {
      RenamedPreNo(k);
    } else if k == "iface" || k == "ifaceInternet" {
      RenamedIfaces();
    }
  }

  lemma RenamedPreNo(k: string)
    requires k in PreNo
    ensures RenamedKey(k) == "NO_" + Upper(k)
  {
    assert "no_" + k != "iface" && "no_" + k != "ifaceInternet" by {
      assert ("no_" + k)[0] == 'n';
    }
    assert Upper("no_" + k) == "NO_" + Upper(k) by {
      var u := Upper("no_" + k);
      assert u[..3] == "NO_";
      assert u[3..] == Upper(k);
    }
  }

  lemma RenamedIfaces()
    ensures RenamedKey("iface") == "WIFI_IFACE"
    ensures RenamedKey("ifaceInternet") == "INTERNET_IFACE"
  {
    assert "iface" !in PreNo && "ifaceInternet" !in PreNo;
    assert Upper("wifi_iface") == "WIFI_IFACE";
    assert Upper("internet_iface") == "INTERNET_IFACE";
  }

  /** No output value is a boolean or nil, and no output name has a
      lower-case letter. */
  lemma TransformClean(o: Obj)
    ensures forall e :: e in Transform(o) ==> !e.1.Bool? && !IsNil(e.1) && Utils.NoLower(e.0)
  {
    AssignFrom([], Renaming(o));
  }

  /** When no other option lands on the same output name, the output holds
      exactly the renamed value of the option. */
  lemma TransformGet(o: Obj, k: string)
    requires KeysDistinct(o) && Has(o, k)
    requires forall j :: 0 <= j < |o| && o[j].0 != k ==> RenamedKey(o[j].0) != RenamedKey(k)
    ensures Get(Transform(o), RenamedKey(k)) == RenamedValue(k, Get(o, k))
  {
    var j :| 0 <= j < |o| && o[j].0 == k;
    GetAt(o, j);
    AssignGet([], Renaming(o), RenamedKey(k));
    LastInOnly(Renaming(o), j);
  }

  /** An entry whose name no other entry carries is the last one for it. */
  lemma {:induction false} LastInOnly(src: Obj, j: nat)
    requires j < |src|
    requires forall i :: 0 <= i < |src| && i != j ==> src[i].0 != src[j].0
    ensures LastIn(src, src[j].0) == Some(src[j].1)
  {
    if j == 0 {
      assert !Has(src[1..], src[0].0);
      LastInAbsent(src[1..], src[0].0);
    } else {
      LastInOnly(src[1..], j - 1);
    }
  }

  /** `Object.assign` only ever holds entries of its target or its source. */
  lemma {:induction false} AssignFrom(o: Obj, src: Obj)
    requires KeysDistinct(o)
    ensures forall e :: e in Assign(o, src) ==> e in o || e in src
    decreases |src|
  {
    if src != [] {
      PutFrom(o, src[0].0, src[0].1);
      PutKeys(o, src[0].0, src[0].1);
      AssignFrom(Put(o, src[0].0, src[0].1), src[1..]);
    }
  }

  lemma {:induction false} PutFrom(o: Obj, k: string, v: Val)
    requires KeysDistinct(o)
    ensures forall e :: e in Put(o, k, v) ==> e == (k, v) || e in o
  {
    if o != [] && o[0].0 != k {
      PutFrom(o[1..], k, v);
    }
  }

  /** Assigning entries with fresh, distinct names appends them in order. */
  lemma {:induction false} AssignAppends(o: Obj, src: Obj)
    requires KeysDistinct(o) && KeysDistinct(o + src)
    ensures Assign(o, src) == o + src
    decreases |src|
  {
    if src != [] {
      var o1 := o + [src[0]];
      assert Put(o, src[0].0, src[0].1) == o1 && KeysDistinct(o1) && o1 + src[1..] == o + src by {
        AppendFirst(o, src);
      }
      AssignAppends(o1, src[1..]);
    }
  }

  /** One step of `AssignAppends`: the first fresh entry is appended. */
  lemma AppendFirst(o: Obj, src: Obj)
    requires KeysDistinct(o) && KeysDistinct(o + src) && src != []
    ensures Put(o, src[0].0, src[0].1) == o + [src[0]]
    ensures KeysDistinct(o + [src[0]]) && (o + [src[0]]) + src[1..] == o + src
  {
    assert !Has(o, src[0].0) by {
      forall i | 0 <= i < |o| ensures o[i].0 != src[0].0 {
        assert (o + src)[i] == o[i] && (o + src)[|o|] == src[0];
      }
    }
    PutNew(o, src[0].0, src[0].1);
    assert (o + [src[0]]) + src[1..] == o + src;
    forall i, j | 0 <= i < j < |o| + 1 ensures (o + [src[0]])[i].0 != (o + [src[0]])[j].0 {
      assert (o + [src[0]])[i] == (o + src)[i] && (o + [src[0]])[j] == (o + src)[j];
    }
  }

  /** Assigning an existing name replaces that entry in place. */
  lemma {:induction false} PutAt(o: Obj, j: nat, v: Val)
    requires KeysDistinct(o) && j < |o|
    ensures Put(o, o[j].0, v) == o[j := (o[j].0, v)]
  {
    if j > 0 {
      PutAt(o[1..], j - 1, v);
      assert o[j := (o[j].0, v)] == [o[0]] + o[1..][j - 1 := (o[j].0, v)];
    }
  }

  // ---------------------------------------------------------------- the unit test

  /** The table `normalize('test')` gives on the untouched defaults. */
  const TestTable: Obj := TestA + TestB + TestC + TestD

  const TestA: Obj := [
    ("CHANNEL", Str("default")),
    ("GATEWAY", Str("10.1.1.1")),
    ("WPA_VERSION", Val.Int(2)),
    ("ETC_HOSTS", Val.Int(0)),
    ("DHCP_DNS", Str("gateway")),
    ("NO_DNS", Val.Int(0)),
    ("NO_DNSMASQ", Val.Int(0))]

  const TestB: Obj := [
    ("HIDDEN", Val.Int(0)),
    ("MAC_FILTER", Val.Int(0)),
    ("MAC_FILTER_ACCEPT", Str("/etc/hostapd/hostapd.accept")),
    ("ISOLATE_CLIENTS", Val.Int(0)),
    ("SHARE_METHOD", Str("none")),
    ("IEEE80211N", Val.Int(0)),
    ("IEEE80211AC", Val.Int(0))]

  const TestC: Obj := [
    ("HT_CAPAB", Str("[HT40+]")),
    ("VHT_CAPAB", Str("")),
    ("DRIVER", Str("nl80211")),
    ("NO_VIRT", Val.Int(1)),
    ("COUNTRY", Str("")),
    ("FREQ_BAND", Str("2.4")),
    ("NEW_MACADDR", Str(""))]

  const TestD: Obj := [
    ("DAEMONIZE", Val.Int(0)),
    ("NO_HAVEGED", Val.Int(0)),
    ("WIFI_IFACE", Str("wlan0")),
    ("INTERNET_IFACE", Str("")),
    ("SSID", Str("test")),
    ("PASSPHRASE", Str("12345678")),
    ("USE_PSK", Val.Int(0))]

  /** No name of `a` is a name of `b`. */
  predicate Apart(a: Obj, b: Obj) {
    forall i, j :: 0 <= i < |a| && 0 <= j < |b| ==> a[i].0 != b[j].0
  }

  lemma ApartJoin(a: Obj, b: Obj, c: Obj)
    requires Apart(a, c) && Apart(b, c)
    ensures Apart(a + b, c)
  {
    forall i, j | 0 <= i < |a + b| && 0 <= j < |c| ensures (a + b)[i].0 != c[j].0 {
      if i < |a| { assert (a + b)[i] == a[i]; } else { assert (a + b)[i] == b[i - |a|]; }
    }
  }

  lemma DistinctJoin(a: Obj, b: Obj)
    requires KeysDistinct(a) && KeysDistinct(b) && Apart(a, b)
    ensures KeysDistinct(a + b)
  {
    forall i, j | 0 <= i < j < |a + b| ensures (a + b)[i].0 != (a + b)[j].0 {
      if j < |a| {
        assert (a + b)[i] == a[i] && (a + b)[j] == a[j];
      } else if i < |a| {
        assert (a + b)[i] == a[i] && (a + b)[j] == b[j - |a|];
      } else {
        assert (a + b)[i] == b[i - |a|] && (a + b)[j] == b[j - |a|];
      }
    }
  }

  /** Four runs with distinct names, pairwise apart, join into one object
      with distinct names. */
  lemma DistinctRuns(a: Obj, b: Obj, c: Obj, d: Obj)
    requires KeysDistinct(a) && KeysDistinct(b) && KeysDistinct(c) && KeysDistinct(d)
    requires Apart(a, b) && Apart(a, c) && Apart(a, d) && Apart(b, c) && Apart(b, d) && Apart(c, d)
    ensures KeysDistinct(a + b + c + d)
  {
    DistinctJoin(a, b);
    ApartJoin(a, b, c);
    DistinctJoin(a + b, c);
    ApartJoin(a, b, d);
    ApartJoin(a + b, c, d);
    DistinctJoin(a + b + c, d);
  }

  /** The defaults name each property once. */
  lemma DefaultsDistinct()
    ensures KeysDistinct(Defaults)
  {
    DefaultsRunsDistinct();
    DefaultsRunsApart();
    DistinctRuns(DefaultsA, DefaultsB, DefaultsC, DefaultsD);
  }

  lemma DefaultsRunsDistinct()
    ensures KeysDistinct(DefaultsA) && KeysDistinct(DefaultsB) && KeysDistinct(DefaultsC) && KeysDistinct(DefaultsD)
  {
    DefaultsLastRunsDistinct();
  }

  lemma DefaultsLastRunsDistinct()
    ensures KeysDistinct(DefaultsC) && KeysDistinct(DefaultsD)
  {
  }

  lemma DefaultsRunsApart()
    ensures Apart(DefaultsA, DefaultsB) && Apart(DefaultsA, DefaultsC) && Apart(DefaultsA, DefaultsD)
    ensures Apart(DefaultsB, DefaultsC) && Apart(DefaultsB, DefaultsD) && Apart(DefaultsC, DefaultsD)
  {
    DefaultsFirstRunApart();
  }

  lemma DefaultsFirstRunApart()
    ensures Apart(DefaultsA, DefaultsB) && Apart(DefaultsA, DefaultsC) && Apart(DefaultsA, DefaultsD)
  {
  }

  /** The expected table name each property once. */
  lemma TestTableDistinct()
    ensures KeysDistinct(TestTable)
  {
    TestRunsDistinct();
    TestRunsApart();
    DistinctRuns(TestA, TestB, TestC, TestD);
  }

  lemma TestRunsDistinct()
    ensures KeysDistinct(TestA) && KeysDistinct(TestB) && KeysDistinct(TestC) && KeysDistinct(TestD)
  {
    TestLastRunsDistinct();
  }

  lemma TestLastRunsDistinct()
    ensures KeysDistinct(TestC) && KeysDistinct(TestD)
  {
  }

  lemma TestRunsApart()
    ensures Apart(TestA, TestB) && Apart(TestA, TestC) && Apart(TestA, TestD)
    ensures Apart(TestB, TestC) && Apart(TestB, TestD) && Apart(TestC, TestD)
  {
    TestFirstRunApart();
  }

  lemma TestFirstRunApart()
    ensures Apart(TestA, TestB) && Apart(TestA, TestC) && Apart(TestA, TestD)
  {
  }

  /** The runs of the defaults after `normalize('test')` that it changes. */
  const MergedB: Obj := DefaultsB[4 := ("share_method", Str("none"))]
  const MergedC: Obj := DefaultsC[3 := ("virt", Bool(false))]
  const MergedD: Obj := DefaultsD[4 := ("ssid", Str("test"))][3 := ("ifaceInternet", Undefined)]

  /** The defaults after `normalize('test')`: `ssid`, `ifaceInternet`,
      `share_method` and `virt` replaced in place, the rest untouched. */
  lemma MergeTest()
    ensures KeysDistinct(Defaults)
    ensures Merge(Defaults, Str("test"), []) == DefaultsA + MergedB + MergedC + MergedD
  {
    DefaultsDistinct();
    var base := TestBase();
    assert Merge(Defaults, Str("test"), []) == Assign(Defaults, base) by {
      assert Get([], "ifaceInternet") == Undefined;
    }
    TestAssigned(base);
    TestUpdates();
  }

  lemma TestAssigned(base: Obj)
    requires KeysDistinct(Defaults) && |base| == 4
    requires base[0].0 == "ssid" && base[1].0 == "ifaceInternet" && base[2].0 == "share_method" && base[3].0 == "virt"
    ensures Assign(Defaults, base) == Defaults[25 := base[0]][24 := base[1]][11 := base[2]][17 := base[3]]
  {
    assert Defaults[25].0 == "ssid" && Defaults[24].0 == "ifaceInternet";
    assert Defaults[11].0 == "share_method" && Defaults[17].0 == "virt";
    AssignFour(Defaults, base, 25, 24, 11, 17);
  }

  /** The base object of `normalize('test')`. */
  lemma TestBase() returns (base: Obj)
    ensures base == Base(Str("test"), Undefined)
    ensures base == [("ssid", Str("test")), ("ifaceInternet", Undefined), ("share_method", Str("none")), ("virt", Bool(false))]
  {
    base := Base(Str("test"), Undefined);
  }

  /** The four replacements land in the last three runs. */
  lemma TestUpdates()
    ensures Defaults[25 := ("ssid", Str("test"))][24 := ("ifaceInternet", Undefined)]
                    [11 := ("share_method", Str("none"))][17 := ("virt", Bool(false))]
            == DefaultsA + MergedB + MergedC + MergedD
  {
    var abc := DefaultsA + DefaultsB + DefaultsC;
    var d1 := Defaults[25 := ("ssid", Str("test"))][24 := ("ifaceInternet", Undefined)];
    assert d1 == abc + MergedD by {
      UpdateJoin(abc, DefaultsD, 25, ("ssid", Str("test")));
      UpdateJoin(abc, DefaultsD[4 := ("ssid", Str("test"))], 24, ("ifaceInternet", Undefined));
    }
    var d2 := d1[11 := ("share_method", Str("none"))];
    assert d2 == DefaultsA + MergedB + DefaultsC + MergedD by {
      UpdateJoin(abc, MergedD, 11, ("share_method", Str("none")));
      UpdateJoin(DefaultsA + DefaultsB, DefaultsC, 11, ("share_method", Str("none")));
      UpdateJoin(DefaultsA, DefaultsB, 11, ("share_method", Str("none")));
    }
    assert d2[17 := ("virt", Bool(false))] == DefaultsA + MergedB + MergedC + MergedD by {
      UpdateJoin(DefaultsA + MergedB + DefaultsC, MergedD, 17, ("virt", Bool(false)));
      UpdateJoin(DefaultsA + MergedB, DefaultsC, 17, ("virt", Bool(false)));
    }
  }

  /** Updating a concatenation updates the side the index falls in. */
  lemma UpdateJoin(a: Obj, b: Obj, i: nat, x: (string, Val))
    requires i < |a| + |b|
    ensures i < |a| ==> (a + b)[i := x] == a[i := x] + b
    ensures i >= |a| ==> (a + b)[i := x] == a + b[i - |a| := x]
  {
  }

  /** Assigning four entries over an object that already has their four
      names replaces those entries in place. */
  lemma AssignFour(o: Obj, src: Obj, s: nat, n: nat, m: nat, v: nat)
    requires KeysDistinct(o) && |src| == 4 && s < |o| && n < |o| && m < |o| && v < |o|
    requires o[s].0 == src[0].0 && o[n].0 == src[1].0 && o[m].0 == src[2].0 && o[v].0 == src[3].0
    requires src[0].0 != src[1].0 && src[2].0 != src[3].0
    requires m != s && m != n && v != s && v != n
    ensures Assign(o, src) == o[s := src[0]][n := src[1]][m := src[2]][v := src[3]]
  {
    var o2 := o[s := src[0]][n := src[1]];
    assert KeysDistinct(o2) && Assign(o, src) == Assign(o2, src[2..]) by {
      var x := AssignTwo(o, src, s, n);
    }
    var rest := src[2..];
    assert o2[m].0 == rest[0].0 && o2[v].0 == rest[1].0;
    assert Assign(o2, rest) == Assign(o2[m := rest[0]][v := rest[1]], rest[2..]) by {
      var x := AssignTwo(o2, rest, m, v);
    }
    assert rest[2..] == [];
  }

  /** Assigning the first two entries of `src`, whose names sit at `i` and
      `j`, replaces those entries in place. */
  lemma AssignTwo(o: Obj, src: Obj, i: nat, j: nat) returns (o2: Obj)
    requires KeysDistinct(o) && |src| >= 2 && i < |o| && j < |o|
    requires o[i].0 == src[0].0 && o[j].0 == src[1].0 && src[0].0 != src[1].0
    ensures KeysDistinct(o2) && o2 == o[i := src[0]][j := src[1]]
    ensures Assign(o, src) == Assign(o2, src[2..])
  {
    PutAt(o, i, src[0].1);
    var o1 := o[i := src[0]];
    PutAt(o1, j, src[1].1);
    o2 := o1[j := src[1]];
    assert src[1..][0] == src[1] && src[1..][1..] == src[2..];
  }

  /** Two runs of seven entries that agree entry by entry are equal. */
  lemma SameRun(a: Obj, b: Obj)
    requires |a| == 7 && |b| == 7
    requires a[0] == b[0] && a[1] == b[1] && a[2] == b[2] && a[3] == b[3]
    requires a[4] == b[4] && a[5] == b[5] && a[6] == b[6]
    ensures a == b
  {
    forall i | 0 <= i < 7 ensures a[i] == b[i] {
      if i < 4 {
        assert i == 0 || i == 1 || i == 2 || i == 3;
      } else {
        assert i == 4 || i == 5 || i == 6;
      }
    }
  }

  /** Renaming works entry by entry. */
  lemma RenamingJoin(a: Obj, b: Obj)
    ensures Renaming(a + b) == Renaming(a) + Renaming(b)
  {
  }

  /** The first run of the table. */
  lemma RenamedA()
    ensures Renaming(DefaultsA) == TestA
  {
    var r := Renaming(DefaultsA);
    forall i | 0 <= i < 7 ensures r[i] == TestA[i] {
      if i == 0 { EntryA0(); }
      else if i == 1 { EntryA1(); }
      else if i == 2 { EntryA2(); }
      else if i == 3 { EntryA3(); }
      else if i == 4 { EntryA4(); }
      else if i == 5 { EntryA5(); }
      else { EntryA6(); }
    }
  }

  lemma EntryA0() ensures Renaming(DefaultsA)[0] == TestA[0] { assert Upper("channel") == "CHANNEL"; }
  lemma EntryA1() ensures Renaming(DefaultsA)[1] == TestA[1] { assert Upper("gateway") == "GATEWAY"; }
  lemma EntryA2() ensures Renaming(DefaultsA)[2] == TestA[2] { assert Upper("wpa_version") == "WPA_VERSION"; }
  lemma EntryA3() ensures Renaming(DefaultsA)[3] == TestA[3] { assert Upper("etc_hosts") == "ETC_HOSTS"; }
  lemma EntryA4() ensures Renaming(DefaultsA)[4] == TestA[4] { assert Upper("dhcp_dns") == "DHCP_DNS"; }
  lemma EntryA5() ensures Renaming(DefaultsA)[5] == TestA[5] { assert "no_" + "dns" == "no_dns" && Upper("no_dns") == "NO_DNS"; }
  lemma EntryA6() ensures Renaming(DefaultsA)[6] == TestA[6] { assert "no_" + "dnsmasq" == "no_dnsmasq" && Upper("no_dnsmasq") == "NO_DNSMASQ"; }

  /** The second run of the table. */
  lemma RenamedB()
    ensures Renaming(MergedB) == TestB
  {
    var r := Renaming(MergedB);
    forall i | 0 <= i < 7 ensures r[i] == TestB[i] {
      if i == 0 { EntryB0(); }
      else if i == 1 { EntryB1(); }
      else if i == 2 { EntryB2(); }
      else if i == 3 { EntryB3(); }
      else if i == 4 { EntryB4(); }
      else if i == 5 { EntryB5(); }
      else { EntryB6(); }
    }
  }

  lemma EntryB0() ensures Renaming(MergedB)[0] == TestB[0] { assert Upper("hidden") == "HIDDEN"; }
  lemma EntryB1() ensures Renaming(MergedB)[1] == TestB[1] { assert Upper("mac_filter") == "MAC_FILTER"; }
  lemma EntryB2() ensures Renaming(MergedB)[2] == TestB[2] { assert Upper("mac_filter_accept") == "MAC_FILTER_ACCEPT"; }
  lemma EntryB3() ensures Renaming(MergedB)[3] == TestB[3] { assert Upper("isolate_clients") == "ISOLATE_CLIENTS"; }
  lemma EntryB4() ensures Renaming(MergedB)[4] == TestB[4] { assert Upper("share_method") == "SHARE_METHOD"; }
  lemma EntryB5() ensures Renaming(MergedB)[5] == TestB[5] { assert Upper("ieee80211n") == "IEEE80211N"; }
  lemma EntryB6() ensures Renaming(MergedB)[6] == TestB[6] { assert Upper("ieee80211ac") == "IEEE80211AC"; }

  /** The third run of the table. */
  lemma RenamedC()
    ensures Renaming(MergedC) == TestC
  {
    var r := Renaming(MergedC);
    forall i | 0 <= i < 7 ensures r[i] == TestC[i] {
      if i == 0 { EntryC0(); }
      else if i == 1 { EntryC1(); }
      else if i == 2 { EntryC2(); }
      else if i == 3 { EntryC3(); }
      else if i == 4 { EntryC4(); }
      else if i == 5 { EntryC5(); }
      else { EntryC6(); }
    }
  }

  lemma EntryC0() ensures Renaming(MergedC)[0] == TestC[0] { assert Upper("ht_capab") == "HT_CAPAB"; }
  lemma EntryC1() ensures Renaming(MergedC)[1] == TestC[1] { assert Upper("vht_capab") == "VHT_CAPAB"; }
  lemma EntryC2() ensures Renaming(MergedC)[2] == TestC[2] { assert Upper("driver") == "DRIVER"; }
  lemma EntryC3() ensures Renaming(MergedC)[3] == TestC[3] { assert "no_" + "virt" == "no_virt" && Upper("no_virt") == "NO_VIRT"; }
  lemma EntryC4() ensures Renaming(MergedC)[4] == TestC[4] { assert Upper("country") == "COUNTRY"; }
  lemma EntryC5() ensures Renaming(MergedC)[5] == TestC[5] { assert Upper("freq_band") == "FREQ_BAND"; }
  lemma EntryC6() ensures Renaming(MergedC)[6] == TestC[6] { assert Upper("new_macaddr") == "NEW_MACADDR"; }

  /** The last run of the table. */
  lemma RenamedD()
    ensures Renaming(MergedD) == TestD
  {
    var r := Renaming(MergedD);
    forall i | 0 <= i < 7 ensures r[i] == TestD[i] {
      if i == 0 { EntryD0(); }
      else if i == 1 { EntryD1(); }
      else if i == 2 { EntryD2(); }
      else if i == 3 { EntryD3(); }
      else if i == 4 { EntryD4(); }
      else if i == 5 { EntryD5(); }
      else { EntryD6(); }
    }
  }

  lemma EntryD0() ensures Renaming(MergedD)[0] == TestD[0] { assert Upper("daemonize") == "DAEMONIZE"; }
  lemma EntryD1() ensures Renaming(MergedD)[1] == TestD[1] { assert "no_" + "haveged" == "no_haveged" && Upper("no_haveged") == "NO_HAVEGED"; }
  lemma EntryD2() ensures Renaming(MergedD)[2] == TestD[2] { assert Upper("wifi_iface") == "WIFI_IFACE"; }
  lemma EntryD3() ensures Renaming(MergedD)[3] == TestD[3] { assert Upper("internet_iface") == "INTERNET_IFACE"; }
  lemma EntryD4() ensures Renaming(MergedD)[4] == TestD[4] { assert Upper("ssid") == "SSID"; }
  lemma EntryD5() ensures Renaming(MergedD)[5] == TestD[5] { assert Upper("passphrase") == "PASSPHRASE"; }
  lemma EntryD6() ensures Renaming(MergedD)[6] == TestD[6] { assert Upper("use_psk") == "USE_PSK"; }

  /** `normalize('test')` on the untouched defaults gives exactly the table
      the unit test expects, in the defaults' order. */
  lemma NormalizeTest()
    ensures KeysDistinct(Defaults)
    ensures Transform(Merge(Defaults, Str("test"), [])) == TestTable
  {
    MergeTest();
    RenamingJoin(DefaultsA, MergedB);
    RenamingJoin(DefaultsA + MergedB, MergedC);
    RenamingJoin(DefaultsA + MergedB + MergedC, MergedD);
    RenamedA();
    RenamedB();
    RenamedC();
    RenamedD();
    TestTableDistinct();
    assert [] + TestTable == TestTable;
    AssignAppends([], TestTable);
  }

  // ---------------------------------------------------------------- --config

  /** Characters an unquoted path may not contain. */
  const BareStops := {' ', '\r', '\n', '\t', '"'}

  const ConfigFlag := "--config "

  /** Length of the longest prefix of `s` avoiding `stop`. */
  function RunLength(s: string, stop: set<char>): (n: nat)
    ensures n <= |s| && (forall i :: 0 <= i < n ==> s[i] !in stop) && (n < |s| ==> s[n] in stop)
  {
    if s == [] || s[0] in stop then 0 else 1 + RunLength(s[1..], stop)
  }

  /** The largest `q` with `1 <= q < n` and `t[q]` a double quote. */
  function LastQuote(t: string, n: nat): (r: Option<nat>)
    requires n <= |t|
    ensures r.Some? ==> 1 <= r.value < n && t[r.value] == '"' && forall q :: r.value < q < n ==> t[q] != '"'
    ensures r.None? ==> forall q :: 1 <= q < n ==> t[q] != '"'
  {
    if n <= 1 then None else if t[n - 1] == '"' then Some(n - 1) else LastQuote(t, n - 1)
  }

  /** What `REG_CONFIG_FILE` captures when tried at position `i`: after
      `--config `, either a quote, then at least one character of the same
      line up to the last quote on that line, or a non-empty run of
      characters other than blanks, line breaks and quotes. */
  function MatchAt(s: string, i: nat): Option<string>
    requires i <= |s|
  {
    if !StartsWith(s[i..], ConfigFlag) then None
    else
      var rest := s[i + |ConfigFlag|..];
      if rest != [] && rest[0] == '"' then
        var t := rest[1..];
        var q := LastQuote(t, RunLength(t, LineTerminators));
        if q.Some? then Some(t[..q.value]) else None
      else
        var n := RunLength(rest, BareStops);
        if n > 0 then Some(rest[..n]) else None
  }

  /** The leftmost match at or after `i`. */
  function SearchFrom(s: string, i: nat): Option<string>
    requires i <= |s|
    decreases |s| - i
  {
    if MatchAt(s, i).Some? then MatchAt(s, i)
    else if i == |s| then None
    else SearchFrom(s, i + 1)
  }

  /** `match[2] || match[3]` for `content.match(REG_CONFIG_FILE)`; `None`
      when there is no match. */
  function ConfigPath(content: string): (r: Option<string>)
    ensures r.Some? ==> r.value != ""
  {
    SearchFromNonEmpty(content, 0);
    SearchFrom(content, 0)
  }

  lemma {:induction false} SearchFromNonEmpty(s: string, i: nat)
    requires i <= |s|
    ensures SearchFrom(s, i).Some? ==> SearchFrom(s, i).value != ""
    decreases |s| - i
  {
    if MatchAt(s, i).None? && i < |s| {
      SearchFromNonEmpty(s, i + 1);
    }
  }

  /** No `--config ` in the unit file, no path. */
  lemma {:induction false} ConfigPathAbsent(s: string)
    requires !Contains(s, ConfigFlag)
    ensures ConfigPath(s).None?
  {
    ContainsOccurs(s, ConfigFlag);
    SearchNone(s, 0);
  }

  lemma {:induction false} SearchNone(s: string, i: nat)
    requires i <= |s|
    requires forall j :: i <= j <= |s| ==> !StartsWith(s[j..], ConfigFlag)
    ensures SearchFrom(s, i).None?
    decreases |s| - i
  {
    if i < |s| {
      SearchNone(s, i + 1);
    }
  }

  /** Text before the flag that has no `-` cannot hold a match. */
  lemma {:induction false} SearchSkips(s: string, k: nat, i: nat)
    requires i <= k <= |s| && Avoids(s[..k], {'-'})
    ensures SearchFrom(s, i) == SearchFrom(s, k)
    decreases k - i
  {
    if i < k {
      assert s[i] == s[..k][i];
      NoMatchAt(s, i);
      SearchSkips(s, k, i + 1);
    }
  }

  /** No match can start at a character other than `-`. */
  lemma NoMatchAt(s: string, i: nat)
    requires i < |s| && s[i] != '-'
    ensures MatchAt(s, i).None?
  {
    assert !StartsWith(s[i..], ConfigFlag) by {
      assert s[i..][0] == s[i];
    }
  }

  lemma {:induction false} RunLengthOf(p: string, rest: string, stop: set<char>)
    requires forall i :: 0 <= i < |p| ==> p[i] !in stop
    requires rest == [] || rest[0] in stop
    ensures RunLength(p + rest, stop) == |p|
  {
    if p != [] {
      assert (p + rest)[1..] == p[1..] + rest;
      RunLengthOf(p[1..], rest, stop);
    } else {
      assert p + rest == rest;
    }
  }

  /** A unit file holding `--config <path>` with a bare path yields that path. */
  lemma ConfigPathBare(pre: string, p: string, rest: string)
    requires Avoids(pre, {'-'})
    requires p != "" && forall i :: 0 <= i < |p| ==> p[i] !in BareStops
    requires rest == [] || rest[0] in BareStops
    ensures ConfigPath(pre + ConfigFlag + p + rest) == Some(p)
  {
    var s := pre + ConfigFlag + p + rest;
    assert s[..|pre|] == pre;
    assert s[|pre|..] == ConfigFlag + (p + rest);
    MatchBare(s, |pre|, p, rest);
    FoundAt(s, |pre|);
  }

  lemma MatchBare(s: string, i: nat, p: string, rest: string)
    requires i <= |s| && s[i..] == ConfigFlag + (p + rest)
    requires p != "" && forall k :: 0 <= k < |p| ==> p[k] !in BareStops
    requires rest == [] || rest[0] in BareStops
    ensures MatchAt(s, i) == Some(p)
  {
    assert StartsWith(s[i..], ConfigFlag) by {
      assert s[i..][..|ConfigFlag|] == ConfigFlag;
    }
    var after := s[i + |ConfigFlag|..];
    assert after == p + rest by {
      assert s[i..][|ConfigFlag|..] == after;
    }
    assert RunLength(after, BareStops) == |p| by {
      RunLengthOf(p, rest, BareStops);
    }
    assert after[..|p|] == p;
  }

  /** A unit file holding `--config "<path>"` at the end of a line yields the
      path between the quotes, quotes inside it included. */
  lemma ConfigPathQuoted(pre: string, p: string, rest: string)
    requires Avoids(pre, {'-'})
    requires p != "" && forall i :: 0 <= i < |p| ==> p[i] !in LineTerminators
    requires rest == [] || rest[0] in LineTerminators
    ensures ConfigPath(pre + ConfigFlag + "\"" + p + "\"" + rest) == Some(p)
  {
    var s := pre + ConfigFlag + "\"" + p + "\"" + rest;
    assert s[..|pre|] == pre;
    assert s[|pre|..] == ConfigFlag + ("\"" + p + "\"" + rest);
    MatchQuoted(s, |pre|, p, rest);
    FoundAt(s, |pre|);
  }

  /** The first position that can hold a match is where `ConfigPath` finds one. */
  lemma FoundAt(s: string, k: nat)
    requires k <= |s| && Avoids(s[..k], {'-'}) && MatchAt(s, k).Some?
    ensures ConfigPath(s) == MatchAt(s, k)
  {
    SearchSkips(s, k, 0);
  }

  lemma MatchQuoted(s: string, i: nat, p: string, rest: string)
    requires i <= |s| && s[i..] == ConfigFlag + ("\"" + p + "\"" + rest)
    requires p != "" && forall k :: 0 <= k < |p| ==> p[k] !in LineTerminators
    requires rest == [] || rest[0] in LineTerminators
    ensures MatchAt(s, i) == Some(p)
  {
    assert StartsWith(s[i..], ConfigFlag) by {
      assert s[i..][..|ConfigFlag|] == ConfigFlag;
    }
    var after := s[i + |ConfigFlag|..];
    assert after == "\"" + p + "\"" + rest by {
      assert s[i..][|ConfigFlag|..] == after;
    }
    var t := after[1..];
    assert t == (p + "\"") + rest;
    QuotedTail(t, p, rest);
  }

  /** After the opening quote: the line ends right after the closing quote. */
  lemma QuotedTail(t: string, p: string, rest: string)
    requires t == (p + "\"") + rest
    requires forall k :: 0 <= k < |p| ==> p[k] !in LineTerminators
    requires p != "" && (rest == [] || rest[0] in LineTerminators)
    ensures LastQuote(t, RunLength(t, LineTerminators)) == Some(|p|) && t[..|p|] == p
  {
    assert RunLength(t, LineTerminators) == |p| + 1 by {
      RunLengthOf(p + "\"", rest, LineTerminators);
    }
    assert t[|p|] == '"';
    assert t[..|p|] == p;
  }

  // ---------------------------------------------------------------- configure

  /** What `configure` ends with: the parsed config file when there are no
      options, else the properties written back to the config file. */
  datatype Outcome = Read(data: Obj) | Written(path: string, data: Obj)

  function NotInstalled(service: Val): string {
    "Service \"" + ToString(service) + "\" is not installed properly"
  }

  function NoConfigFlag(service: Val): string {
    "Can not configure server \"" + ToString(service) + "\", it started without --config "
  }

  /** The file steps of `configure`.  `unit` is the service's unit file, if
      systemd knows one; `parse` reads a properties file by path. */
  function ConfigureWith(service: Val, props: Option<Obj>, unit: Option<string>, parse: string -> Obj): (r: Result<Outcome, string>)
    requires forall path :: KeysDistinct(parse(path))
    ensures unit.None? ==> r == Err(NotInstalled(service))
    ensures unit.Some? && ConfigPath(unit.value).None? ==> r == Err(NoConfigFlag(service))
    ensures r.Ok? ==> unit.Some? && ConfigPath(unit.value).Some?
    ensures r.Ok? && props.None? ==> r.value == Read(parse(ConfigPath(unit.value).value))
    ensures r.Ok? && props.Some? ==> r.value.Written? && r.value.path == ConfigPath(unit.value).value
  {
    if unit.None? then Err(NotInstalled(service))
    else
      var path := ConfigPath(unit.value);
      if path.None? then Err(NoConfigFlag(service))
      else if props.None? then Ok(Read(parse(path.value)))
      else Ok(Written(path.value, Assign(parse(path.value), UpperKeys(props.value))))
  }

  /** `data[_.toUpper(k)] = v` for every property. */
  function UpperKeys(o: Obj): (r: Obj)
    ensures |r| == |o| && forall i :: 0 <= i < |o| ==> r[i] == (Upper(o[i].0), o[i].1)
  {
    seq(|o|, i requires 0 <= i < |o| => (Upper(o[i].0), o[i].1))
  }

  /** The file written holds every normalized property, and the parsed file's
      other properties unchanged. */
  lemma ConfigureWrites(service: Val, props: Obj, unit: string, parse: string -> Obj, k: string)
    requires forall path :: KeysDistinct(parse(path))
    requires ConfigPath(unit).Some?
    requires KeysDistinct(props) && forall i :: 0 <= i < |props| ==> Utils.NoLower(props[i].0)
    ensures var r := ConfigureWith(service, Some(props), Some(unit), parse);
      && r.Ok? && r.value.Written?
      && Get(r.value.data, k) == if Has(props, k) then Get(props, k) else Get(parse(ConfigPath(unit).value), k)
  {
    var up := UpperKeys(props);
    assert up == props by {
      forall i | 0 <= i < |props| ensures up[i] == props[i] {
        NoLowerUpper(props[i].0);
      }
    }
    AssignGet(parse(ConfigPath(unit).value), props, k);
    if Has(props, k) {
      var j :| 0 <= j < |props| && props[j].0 == k;
      LastInOnly(props, j);
      GetAt(props, j);
    } else {
      LastInAbsent(props, k);
    }
  }

  lemma NoLowerUpper(s: string)
    requires Utils.NoLower(s)
    ensures Upper(s) == s
  {
  }

  // ---------------------------------------------------------------- module state

  /** The module's two pieces of state: the shared defaults object and the
      service name. */
  class Controller {
    var defaults: Obj
    var serviceName: Val

    predicate Valid()
      reads this
    {
      KeysDistinct(defaults)
    }

    constructor()
      ensures defaults == Defaults && serviceName == Str(DefaultServiceName)
      ensures Valid()
    {
      defaults := Defaults;
      serviceName := Str(DefaultServiceName);
      DefaultsDistinct();
    }

    /** `normalize(ssid, options)`: a falsy ssid changes nothing and gives
        nothing; otherwise the defaults become the merge and the result is
        its transform. */
    method Normalize(ssid: Arg, options: Obj) returns (r: Option<Obj>)
      requires Valid()
      modifies this
      ensures Valid() && serviceName == old(serviceName)
      ensures Arguments(ssid, options).None? ==> r.None? && defaults == old(defaults)
      ensures Arguments(ssid, options).Some? ==>
        var (name, opts) := Arguments(ssid, options).value;
        defaults == Merge(old(defaults), name, opts) && r == Some(Transform(defaults))
    {
      var args := Arguments(ssid, options);
      if args.None? {
        return None;
      }
      var (name, opts) := args.value;
      defaults := Merge(defaults, name, opts);
      r := Some(Transform(defaults));
    }

    /** `getServiceName()`. */
    method GetServiceName() returns (name: Val)
      ensures name == serviceName
    {
      name := serviceName;
    }

    /** `setServiceName(name)`: a falsy name is ignored; the current name is
        returned either way. */
    method SetServiceName(name: Val) returns (current: Val)
      modifies this
      ensures serviceName == (if Truthy(name) then name else old(serviceName))
      ensures current == serviceName && defaults == old(defaults)
    {
      if Truthy(name) {
        serviceName := name;
      }
      current := serviceName;
    }

    /** `configure(ssid, options)`: normalizes first — so the defaults change
        even when a later step fails — then reads the unit file's `--config`
        path and reads or rewrites that file. */
    method Configure(ssid: Arg, options: Obj, unit: Option<string>, parse: string -> Obj)
      returns (r: Result<Outcome, string>)
      requires Valid() && forall path :: KeysDistinct(parse(path))
      modifies this
      ensures Valid() && serviceName == old(serviceName)
      ensures Arguments(ssid, options).None? ==>
        defaults == old(defaults) && r == ConfigureWith(serviceName, None, unit, parse)
      ensures Arguments(ssid, options).Some? ==>
        var (name, opts) := Arguments(ssid, options).value;
        defaults == Merge(old(defaults), name, opts) &&
        r == ConfigureWith(serviceName, Some(Transform(defaults)), unit, parse)
    {
      var props := Normalize(ssid, options);
      r := ConfigureWith(serviceName, props, unit, parse);
    }
  }
}
