/** `lib/ap.js`: starting `create_ap` with a command line built from the
    caller's options, and following the started process through its output
    until it is closed. */
module Ap {
  import opened Common
  import opened Js
  import Text
  import Utils
  import Iw
  import Apc

  // ---------------------------------------------------------------- flags

  predicate IsUpper(c: char) {
    'A' <= c <= 'Z'
  }

  /** The first step of `inflection.underscore`: `_` before every
      upper-case letter. */
  function Marked(k: string): string {
    if k == [] then [] else (if IsUpper(k[0]) then ['_', k[0]] else [k[0]]) + Marked(k[1..])
  }

  /** `inflection.underscore(k)`: marked, one leading `_` dropped, lower-cased. */
  function Underscore(k: string): string {
    var m := Marked(k);
    Text.Lower(if m != [] && m[0] == '_' then m[1..] else m)
  }

  /** `inflection.dasherize(s)`: every `_` and every space becomes `-`. */
  function Dasherize(s: string): (r: string)
    ensures |r| == |s|
    ensures forall i :: 0 <= i < |s| ==> r[i] == if s[i] == '_' || s[i] == ' ' then '-' else s[i]
  {
    seq(|s|, i requires 0 <= i < |s| => if s[i] == '_' || s[i] == ' ' then '-' else s[i])
  }

  /** The flag an option name becomes: `-k` for a one-letter name, `--`
      and the dashed name otherwise. */
  function Flag(k: string): string {
    if |k| == 1 then "-" + k else "--" + Dasherize(Underscore(k))
  }

  /** The dashed form of a camel-case name, written out directly: a `-`
      and the lower-case letter for each upper-case letter. */
  function Kebab(k: string): string {
    if k == [] then [] else (if IsUpper(k[0]) then ['-', Text.LowerChar(k[0])] else [k[0]]) + Kebab(k[1..])
  }

  /** A name without `_` or spaces. */
  predicate Plain(k: string) {
    forall i :: 0 <= i < |k| ==> k[i] != '_' && k[i] != ' '
  }

  lemma {:induction false} KebabMarked(k: string)
    requires Plain(k)
    ensures Dasherize(Text.Lower(Marked(k))) == Kebab(k)
  {
    if k != [] {
      KebabMarked(k[1..]);
      var h := if IsUpper(k[0]) then ['_', k[0]] else [k[0]];
      assert Marked(k) == h + Marked(k[1..]);
      DashLowerAppend(h, Marked(k[1..]));
      DashLowerHead(k[0]);
    }
  }

  lemma DashLowerAppend(a: string, b: string)
    ensures Dasherize(Text.Lower(a + b)) == Dasherize(Text.Lower(a)) + Dasherize(Text.Lower(b))
  {
    assert Text.Lower(a + b) == Text.Lower(a) + Text.Lower(b);
    var x, y := Text.Lower(a), Text.Lower(b);
    assert Dasherize(x + y) == Dasherize(x) + Dasherize(y);
  }

  lemma DashLowerHead(c: char)
    requires c != '_' && c != ' '
    ensures Dasherize(Text.Lower(if IsUpper(c) then ['_', c] else [c]))
      == if IsUpper(c) then ['-', Text.LowerChar(c)] else [c]
  {
  }

  /** A camel-case name of two or more letters becomes `--` and its dashed
      lower-case form; `noVirt` becomes `--no-virt`. */
  lemma FlagCamelCase(k: string)
    requires |k| >= 2 && !IsUpper(k[0]) && Plain(k)
    ensures Flag(k) == "--" + Kebab(k)
  {
    assert Marked(k)[0] == k[0];
    KebabMarked(k);
  }

  lemma NoVirtFlag()
    ensures Flag("noVirt") == "--no-virt"
  {
    assert Plain("noVirt");
    FlagCamelCase("noVirt");
    KebabNoVirt();
  }

  lemma KebabNoVirt()
    ensures Kebab("noVirt") == "no-virt"
  {
    assert Kebab("noVirt") == "no-virt";
  }

  /** A name of lower-case letters and digits is kept as it is. */
  lemma {:induction false} KebabLower(k: string)
    requires forall i :: 0 <= i < |k| ==> 'a' <= k[i] <= 'z' || '0' <= k[i] <= '9'
    ensures Kebab(k) == k
  {
    if k != [] {
      KebabLower(k[1..]);
      assert [k[0]] + k[1..] == k;
    }
  }

  /** Long flags carry no upper-case letter, no `_` and no space. */
  lemma FlagShape(k: string)
    requires |k| != 1
    ensures Text.StartsWith(Flag(k), "--")
    ensures Utils.NoUpper(Flag(k))
    ensures forall i :: 0 <= i < |Flag(k)| ==> Flag(k)[i] != '_' && Flag(k)[i] != ' '
  {
    var d := Dasherize(Underscore(k));
    assert Flag(k) == "--" + d;
    forall i | 0 <= i < |d|
      ensures !IsUpper(d[i]) && d[i] != '_' && d[i] != ' '
    {
    }
  }

  // ---------------------------------------------------------------- options

  /** What one option puts on the command line: its flag, then its value
      unless the value is a boolean (so `false` still gives the flag). */
  function OptionArgs(k: string, v: Val): seq<Val> {
    [Str(Flag(k))] + (if v.Bool? then [] else [v])
  }

  /** The options part of the command line, option by option. */
  function OptArgs(opts: Obj): seq<Val> {
    if opts == [] then [] else OptionArgs(opts[0].0, opts[0].1) + OptArgs(opts[1..])
  }

  lemma {:induction false} OptArgsAppend(a: Obj, b: Obj)
    ensures OptArgs(a + b) == OptArgs(a) + OptArgs(b)
  {
    if a != [] {
      assert (a + b)[0] == a[0];
      assert (a + b)[1..] == a[1..] + b;
      OptArgsAppend(a[1..], b);
      AppendAssoc(OptionArgs(a[0].0, a[0].1), OptArgs(a[1..]), OptArgs(b));
    } else {
      assert a + b == b;
    }
  }

  /** Every option's flag is on the command line, every non-boolean value
      too, and no boolean ever is. */
  lemma {:induction false} OptArgsSpec(opts: Obj)
    ensures forall i :: 0 <= i < |opts| ==> Str(Flag(opts[i].0)) in OptArgs(opts)
    ensures forall i :: 0 <= i < |opts| && !opts[i].1.Bool? ==> opts[i].1 in OptArgs(opts)
    ensures forall v :: v in OptArgs(opts) ==> !v.Bool?
  {
    if opts != [] {
      OptArgsSpec(opts[1..]);
      forall i | 1 <= i < |opts|
        ensures opts[i] == opts[1..][i - 1]
      {
      }
    }
  }

  /** `_.merge` into the options, property by property: an `undefined`
      value never replaces a property that is already there. */
  function Merge(o: Obj, src: Obj): (r: Obj)
    requires KeysDistinct(o)
    ensures KeysDistinct(r)
    decreases |src|
  {
    if src == [] then o
    else if src[0].1 == Undefined && Has(o, src[0].0) then Merge(o, src[1..])
    else
      PutKeys(o, src[0].0, src[0].1);
      Merge(Put(o, src[0].0, src[0].1), src[1..])
  }

  /** The last value other than `undefined` that `src` gives `k`. */
  function LastDefined(src: Obj, k: string): Option<Val> {
    if src == [] then None
    else
      var later := LastDefined(src[1..], k);
      if later.Some? then later
      else if src[0].0 == k && src[0].1 != Undefined then Some(src[0].1)
      else None
  }

  /** After the merge a property holds the caller's last defined value for
      it, and its old value when the caller gives none. */
  lemma {:induction false} MergeGet(o: Obj, src: Obj, k: string)
    requires KeysDistinct(o)
    ensures Get(Merge(o, src), k) == if LastDefined(src, k).Some? then LastDefined(src, k).value else Get(o, k)
    decreases |src|
  {
    if src != [] {
      if src[0].1 == Undefined && Has(o, src[0].0) {
        MergeGet(o, src[1..], k);
      } else {
        PutKeys(o, src[0].0, src[0].1);
        MergeGet(Put(o, src[0].0, src[0].1), src[1..], k);
        PutGet(o, src[0].0, src[0].1, k);
      }
    }
  }

  /** The merge keeps the properties already there in their places. */
  lemma {:induction false} MergeKeepsOrder(o: Obj, src: Obj)
    requires KeysDistinct(o)
    ensures |Merge(o, src)| >= |o| && KeySeq(Merge(o, src))[..|o|] == KeySeq(o)
    decreases |src|
  {
    if src != [] {
      if src[0].1 == Undefined && Has(o, src[0].0) {
        MergeKeepsOrder(o, src[1..]);
      } else {
        var o' := Put(o, src[0].0, src[0].1);
        PutKeys(o, src[0].0, src[0].1);
        MergeKeepsOrder(o', src[1..]);
        assert KeySeq(o')[..|o|] == KeySeq(o);
      }
    }
  }

  /** The `opts` that `create` starts from. */
  const DefaultOpts: Obj := [("g", Str("10.1.1.1")), ("noVirt", Bool(true))]

  /** The gateway and `noVirt` come first, each holding the caller's defined
      value or the default; the `--no-virt` flag is always on the command
      line, even when the caller sets `noVirt` to `false`. */
  lemma MergedDefaults(src: Obj)
    ensures var m := Merge(DefaultOpts, src);
      && |m| >= 2
      && m[0] == ("g", if LastDefined(src, "g").Some? then LastDefined(src, "g").value else Str("10.1.1.1"))
      && m[1] == ("noVirt", if LastDefined(src, "noVirt").Some? then LastDefined(src, "noVirt").value else Bool(true))
      && OptArgs(m)[0] == Str("-g")
      && Str("--no-virt") in OptArgs(m)
  {
    MergedHead(src);
    MergedValues(src);
    MergedFlags(src);
  }

  lemma MergedHead(src: Obj)
    ensures var m := Merge(DefaultOpts, src);
      |m| >= 2 && m[0].0 == "g" && m[1].0 == "noVirt"
  {
    var m := Merge(DefaultOpts, src);
    assert KeysDistinct(DefaultOpts);
    MergeKeepsOrder(DefaultOpts, src);
    assert KeySeq(DefaultOpts) == ["g", "noVirt"];
    assert KeySeq(m)[..2] == ["g", "noVirt"];
  }

  lemma MergedValues(src: Obj)
    ensures var m := Merge(DefaultOpts, src);
      && |m| >= 2
      && m[0].1 == (if LastDefined(src, "g").Some? then LastDefined(src, "g").value else Str("10.1.1.1"))
      && m[1].1 == (if LastDefined(src, "noVirt").Some? then LastDefined(src, "noVirt").value else Bool(true))
  {
    var m := Merge(DefaultOpts, src);
    assert KeysDistinct(DefaultOpts);
    MergedHead(src);
    GetAt(m, 0);
    GetAt(m, 1);
    MergeGet(DefaultOpts, src, "g");
    MergeGet(DefaultOpts, src, "noVirt");
  }

  lemma MergedFlags(src: Obj)
    ensures var m := Merge(DefaultOpts, src);
      |OptArgs(m)| >= 1 && OptArgs(m)[0] == Str("-g") && Str("--no-virt") in OptArgs(m)
  {
    var m := Merge(DefaultOpts, src);
    MergedHead(src);
    assert Flag("g") == "-g";
    OptArgsSpec(m);
    NoVirtFlag();
  }

  // ---------------------------------------------------------------- create

  /** What `create` reads of its options object.  An argument that is not
      an object but still has properties (a number, say) reads as all
      `Undefined`. */
  datatype Options = Options(name: Val, iface: Val, ifaceInternet: Val, password: Val, opts: Obj)

  /** The `TypeError` thrown when the options are `undefined` or `null`:
      `create` reads `options.iface` before anything else. */
  const NoOptions := "Cannot read properties of undefined (reading 'iface')"

  function MissingScript(script: string): string {
    "\"create_ap\" has not been found in " + script
  }

  /** The name `create` ends up with: the options' `name` unless undefined,
      else the string first argument, else `null`. */
  function ApName(name: Option<string>, options: Options): Val {
    if options.name != Undefined then options.name
    else if name.Some? then Str(name.value)
    else Null
  }

  /** The command-line arguments `create` builds.  `installed` says whether
      the `create_ap` script exists at `script`; `name` is the first
      argument when it is a string; `options` is `None` when the options
      argument (the first one when the name is not a string) is `undefined`
      or `null`; `devs` is the `iw dev` listing. */
  function CreateArgs(installed: bool, script: string, name: Option<string>, options: Option<Options>, devs: seq<Iw.Device>)
    : Result<seq<Val>, string>
  {
    if !installed then Err(MissingScript(script))
    else if options.None? then Err(NoOptions)
    else
      var options := options.value;
      var iface := Apc.ResolveIface(devs, if Truthy(options.iface) then options.iface else Str("wlan0"), "iface");
      if iface.Err? then Err(iface.error)
      else
        var internet :=
          if Truthy(options.ifaceInternet) then Apc.ResolveIface(devs, options.ifaceInternet, "ifaceInternet")
          else Ok(options.ifaceInternet);
        if internet.Err? then Err(internet.error)
        else Ok(Argv(script, Merge(DefaultOpts, options.opts), iface.value, internet.value, ApName(name, options), options.password))
  }

  /** The positional arguments: the wifi interface, the internet interface
      if there is one, the name, and the password if it is truthy. */
  function Positionals(iface: Val, internet: Val, name: Val, password: Val): seq<Val> {
    [iface] + (if Truthy(internet) then [internet] else []) + [name] + (if Truthy(password) then [password] else [])
  }

  /** The script, the options with `-n` added when there is no internet
      interface, then the positional arguments. */
  function Argv(script: string, opts: Obj, iface: Val, internet: Val, name: Val, password: Val): seq<Val> {
    [Str(script)] + (OptArgs(opts) + (if Truthy(internet) then [] else [Str("-n")])) + Positionals(iface, internet, name, password)
  }

  /** `args.join(' ')`. */
  function Line(args: seq<Val>): string {
    Text.Join(seq(|args|, i requires 0 <= i < |args| => JoinText(args[i])), " ")
  }

  lemma WlanKept(devs: seq<Iw.Device>)
    ensures Iw.ResolvePhy(devs, "wlan0") == Ok("wlan0")
  {
    var s := "wlan0";
    assert forall j :: 0 <= j < |s| ==> s[j] != 'p';
    forall j | 0 <= j <= |s|
      ensures !Text.StartsWith(s[j..], "phy")
    {
      if j < |s| {
        assert s[j..][0] == s[j];
      }
    }
    Text.NotContains(s, "phy");
    Iw.ResolvePhySpec(devs, s);
  }

  /** With a name and an empty options object, `create` runs `create_ap`
      with the gateway `10.1.1.1`, `--no-virt`, no internet sharing, on
      `wlan0`. */
  lemma CreateDefaults(script: string, name: string, devs: seq<Iw.Device>)
    ensures CreateArgs(true, script, Some(name), Some(Options(Undefined, Undefined, Undefined, Undefined, [])), devs)
      == Ok([Str(script), Str("-g"), Str("10.1.1.1"), Str("--no-virt"), Str("-n"), Str("wlan0"), Str(name)])
  {
    assert Apc.ResolveIface(devs, Str("wlan0"), "iface") == Ok(Str("wlan0")) by {
      WlanKept(devs);
    }
    assert Merge(DefaultOpts, []) == DefaultOpts;
    DefaultArgv(script, name);
  }

  /** `create` builds a command line only when the script is there and an
      options object was passed: a name alone, or `undefined` or `null` in
      place of the options, throws once the script is found. */
  lemma CreateNeedsOptions(installed: bool, script: string, name: Option<string>, options: Option<Options>, devs: seq<Iw.Device>)
    ensures CreateArgs(installed, script, name, options, devs).Ok? ==> installed && options.Some?
    ensures installed && options.None? ==> CreateArgs(installed, script, name, options, devs) == Err(NoOptions)
  {
  }

  /** Without internet interface and password the command line ends in
      `-n`, the interface and the name. */
  lemma ArgvBare(script: string, opts: Obj, iface: Val, name: Val)
    ensures Argv(script, opts, iface, Undefined, name, Undefined) == [Str(script)] + OptArgs(opts) + [Str("-n"), iface, name]
  {
  }

  lemma DefaultArgv(script: string, name: string)
    ensures Argv(script, DefaultOpts, Str("wlan0"), Undefined, Str(name), Undefined)
      == [Str(script), Str("-g"), Str("10.1.1.1"), Str("--no-virt"), Str("-n"), Str("wlan0"), Str(name)]
  {
    ArgvBare(script, DefaultOpts, Str("wlan0"), Str(name));
    DefaultOptArgs();
  }

  lemma DefaultOptArgs()
    ensures OptArgs(DefaultOpts) == [Str("-g"), Str("10.1.1.1"), Str("--no-virt")]
  {
    NoVirtFlag();
    assert Flag("g") == "-g";
    assert OptArgs(DefaultOpts[1..]) == [Str("--no-virt")] by {
      assert DefaultOpts[1..][1..] == [];
    }
  }

  /** Every command line has the script first and the options next. */
  lemma ArgvHead(script: string, opts: Obj, iface: Val, internet: Val, name: Val, password: Val)
    ensures var a := Argv(script, opts, iface, internet, name, password);
      var n := 1 + |OptArgs(opts)|;
      |a| > n && a[0] == Str(script) && a[1..n] == OptArgs(opts)
  {
    var a := Argv(script, opts, iface, internet, name, password);
    var o := OptArgs(opts);
    var tail := (if Truthy(internet) then [] else [Str("-n")]) + Positionals(iface, internet, name, password);
    assert a == [Str(script)] + o + tail;
  }

  /** After the options come `-n` when there is no internet interface, and
      always three positional arguments ending in the name, plus the
      password when it is truthy, which is then last. */
  lemma ArgvTail(script: string, opts: Obj, iface: Val, internet: Val, name: Val, password: Val)
    ensures var a := Argv(script, opts, iface, internet, name, password);
      var n := 1 + |OptArgs(opts)|;
      && |a| == n + 3 + (if Truthy(password) then 1 else 0)
      && (!Truthy(internet) ==> a[n] == Str("-n") && a[n + 1] == iface)
      && (Truthy(internet) ==> a[n] == iface && a[n + 1] == internet)
      && a[|a| - 1] == (if Truthy(password) then password else name)
  {
    var o := OptArgs(opts);
    var n := 1 + |o|;
    var tail := (if Truthy(internet) then [] else [Str("-n")]) + Positionals(iface, internet, name, password);
    var a := Argv(script, opts, iface, internet, name, password);
    assert a == ([Str(script)] + o) + tail;
    assert forall j :: n <= j < |a| ==> a[j] == tail[j - n];
  }

  /** The command line of `create`, built as the source builds it: the
      options pushed one by one, then the positional arguments. */
  method CommandLine(installed: bool, script: string, name: Option<string>, options: Option<Options>, devs: seq<Iw.Device>)
    returns (r: Result<string, string>)
    ensures var a := CreateArgs(installed, script, name, options, devs);
      r == if a.Ok? then Ok(Line(a.value)) else Err(a.error)
  {
    if !installed {
      return Err(MissingScript(script));
    }
    if options.None? {
      return Err(NoOptions);
    }
    var options := options.value;
    var iface := Apc.ResolveIface(devs, if Truthy(options.iface) then options.iface else Str("wlan0"), "iface");
    if iface.Err? {
      return Err(iface.error);
    }
    var internet := options.ifaceInternet;
    if Truthy(internet) {
      var resolved := Apc.ResolveIface(devs, internet, "ifaceInternet");
      if resolved.Err? {
        return Err(resolved.error);
      }
      internet := resolved.value;
    }
    var args := BuildArgv(script, Merge(DefaultOpts, options.opts), iface.value, internet, ApName(name, options), options.password);
    r := Ok(Line(args));
  }

  /** The pushes of `create`: the options one by one in a loop, then the
      positional arguments. */
  method BuildArgv(script: string, opts: Obj, iface: Val, internet: Val, name: Val, password: Val) returns (args: seq<Val>)
    ensures args == Argv(script, opts, iface, internet, name, password)
  {
    var apopts := PushOptions(opts);
    var apargs: seq<Val> := [iface];
    if Truthy(internet) {
      apargs := apargs + [internet];
    } else {
      apopts := apopts + [Str("-n")];
    }
    apargs := apargs + [name];
    if Truthy(password) {
      apargs := apargs + [password];
    }
    args := [Str(script)] + apopts + apargs;
  }

  /** The `forEach` over the options. */
  method PushOptions(opts: Obj) returns (apopts: seq<Val>)
    ensures apopts == OptArgs(opts)
  {
    apopts := [];
    var i := 0;
    while i < |opts|
      invariant 0 <= i <= |opts|
      invariant apopts == OptArgs(opts[..i])
    {
      apopts := PushOption(apopts, opts[i].0, opts[i].1);
      OptArgsStep(opts, i);
      i := i + 1;
    }
    assert opts[..i] == opts;
  }

  /** One turn of the `forEach`: the flag, then the value unless boolean. */
  method PushOption(apopts: seq<Val>, k: string, v: Val) returns (r: seq<Val>)
    ensures r == apopts + OptionArgs(k, v)
  {
    if |k| == 1 {
      r := apopts + [Str("-" + k)];
    } else {
      r := apopts + [Str("--" + Dasherize(Underscore(k)))];
    }
    if !v.Bool? {
      r := r + [v];
    }
  }

  lemma OptArgsStep(opts: Obj, i: nat)
    requires i < |opts|
    ensures OptArgs(opts[..i + 1]) == OptArgs(opts[..i]) + OptionArgs(opts[i].0, opts[i].1)
  {
    assert opts[..i + 1] == opts[..i] + [opts[i]];
    OptArgsAppend(opts[..i], [opts[i]]);
    assert [opts[i]][1..] == [];
  }

  // ---------------------------------------------------------------- lifecycle

  /** The events an `AP` emits. */
  datatype Event = Stdout(data: string) | Stderr(data: string) | Error(err: string) | Started | Closed

  /** What an `AP` remembers: `_started`, `_killing`, whether `_process`
      is set, the events emitted and the signals sent to the process. */
  datatype State = State(started: bool, killing: bool, attached: bool, events: seq<Event>, signals: seq<string>)

  /** A freshly constructed `AP` on its process. */
  const Initial := State(false, false, true, [], [])

  /** `active`. */
  predicate Active(s: State) {
    s.started && !s.killing
  }

  /** `_close`: only with a process attached, both flags are reset, the
      process is dropped and `close` is emitted. */
  function Finish(s: State): State {
    if s.attached then State(false, false, false, s.events + [Closed], s.signals) else s
  }

  /** `_handleStatusData(data)`. */
  function OnStdout(s: State, data: string): State {
    var echoed := s.(events := s.events + [Stdout(data)]);
    var s' := if Text.Contains(data, "AP-ENABLED") then echoed.(started := true, events := echoed.events + [Started]) else echoed;
    if s'.killing && Text.Contains(data, "done") then Finish(s') else s'
  }

  /** `close(sig)` up to its wait; `failed` says the wait timed out (or the
      kill threw), which forces `_close`.  A wait that ends with the
      `close` event is a later `OnStdout` seeing `done`. */
  function OnClose(s: State, sig: string, failed: bool): State {
    if !s.attached then s
    else
      var s' := if !s.killing then s.(killing := true, signals := s.signals + [sig]) else s;
      if failed then Finish(s') else s'
  }

  /** What can happen to an `AP`. */
  datatype Input = StdoutData(data: string) | StderrData(data: string) | ProcessError(err: string) | CloseCall(sig: string, failed: bool)

  function Step(s: State, i: Input): State {
    match i
    case StdoutData(d) => OnStdout(s, d)
    case StderrData(d) => s.(events := s.events + [Stderr(d)])
    case ProcessError(e) => s.(events := s.events + [Error(e)])
    case CloseCall(sig, failed) => OnClose(s, sig, failed)
  }

  function Run(s: State, inputs: seq<Input>): State
    decreases |inputs|
  {
    if inputs == [] then s else Run(Step(s, inputs[0]), inputs[1..])
  }

  /** The lifecycle invariant: at most one signal is ever sent, and exactly
      while killing an attached process or after it was dropped; `close` is
      emitted once the process is dropped and never before. */
  predicate Sound(s: State) {
    && |s.signals| <= 1
    && (s.killing ==> s.attached && |s.signals| == 1)
    && (s.attached && !s.killing ==> s.signals == [])
    && multiset(s.events)[Closed] == if s.attached then 0 else 1
  }

  lemma FinishSound(s: State)
    requires Sound(s)
    ensures Sound(Finish(s))
  {
    if s.attached {
      assert multiset(s.events + [Closed]) == multiset(s.events) + multiset{Closed};
    }
  }

  /** Emitting anything but `close` keeps the invariant. */
  lemma EmitSound(s: State, e: Event)
    requires Sound(s) && e != Closed
    ensures Sound(s.(events := s.events + [e]))
  {
    assert multiset(s.events + [e]) == multiset(s.events) + multiset{e};
  }

  lemma StdoutSound(s: State, data: string)
    requires Sound(s)
    ensures Sound(OnStdout(s, data))
  {
    var echoed := s.(events := s.events + [Stdout(data)]);
    EmitSound(s, Stdout(data));
    var s' := if Text.Contains(data, "AP-ENABLED") then echoed.(started := true, events := echoed.events + [Started]) else echoed;
    if Text.Contains(data, "AP-ENABLED") {
      EmitSound(echoed.(started := true), Started);
    }
    FinishSound(s');
  }

  lemma CloseSound(s: State, sig: string, failed: bool)
    requires Sound(s)
    ensures Sound(OnClose(s, sig, failed))
  {
    if s.attached {
      var s' := if !s.killing then s.(killing := true, signals := s.signals + [sig]) else s;
      FinishSound(s');
    }
  }

  lemma StepSound(s: State, i: Input)
    requires Sound(s)
    ensures Sound(Step(s, i))
  {
    match i
    case StdoutData(d) => StdoutSound(s, d);
    case StderrData(d) => EmitSound(s, Stderr(d));
    case ProcessError(e) => EmitSound(s, Error(e));
    case CloseCall(sig, failed) => CloseSound(s, sig, failed);
  }

  lemma {:induction false} RunSound(s: State, inputs: seq<Input>)
    requires Sound(s)
    ensures Sound(Run(s, inputs))
    decreases |inputs|
  {
    if inputs != [] {
      StepSound(s, inputs[0]);
      RunSound(Step(s, inputs[0]), inputs[1..]);
    }
  }

  /** Whatever happens to an `AP`, the process is signalled at most once
      and `close` is emitted at most once, exactly when the process has
      been dropped. */
  lemma Lifecycle(inputs: seq<Input>)
    ensures |Run(Initial, inputs).signals| <= 1
    ensures multiset(Run(Initial, inputs).events)[Closed] == if Run(Initial, inputs).attached then 0 else 1
  {
    RunSound(Initial, inputs);
  }

  /** After output, the AP is active exactly when it is not being killed and
      it was started before or this output says `AP-ENABLED`. */
  lemma ActiveAfterStdout(s: State, data: string)
    ensures Active(OnStdout(s, data)) <==> !s.killing && (s.started || Text.Contains(data, "AP-ENABLED"))
  {
  }

  /** While killing, output containing `done` drops the process and emits
      `close` last. */
  lemma DoneFinishes(s: State, data: string)
    requires s.killing && s.attached && Text.Contains(data, "done")
    ensures !OnStdout(s, data).attached && !OnStdout(s, data).killing
    ensures OnStdout(s, data).events[|OnStdout(s, data).events| - 1] == Closed
    ensures OnStdout(s, data).events[|s.events|] == Stdout(data)
  {
  }

  /** `close` on an AP without a process changes nothing; on one with a
      process it makes it inactive, signals only if no kill was under way,
      and drops the process exactly when the wait failed. */
  lemma CloseSpec(s: State, sig: string, failed: bool)
    ensures !s.attached ==> OnClose(s, sig, failed) == s
    ensures s.attached ==> !Active(OnClose(s, sig, failed))
    ensures s.attached ==> OnClose(s, sig, failed).signals == s.signals + (if s.killing then [] else [sig])
    ensures s.attached ==> (OnClose(s, sig, failed).attached <==> !failed)
  {
  }

  /** Inputs only ever add events; the ones already emitted stay. */
  lemma {:induction false} EventsGrow(s: State, inputs: seq<Input>)
    ensures |s.events| <= |Run(s, inputs).events| && Run(s, inputs).events[..|s.events|] == s.events
    decreases |inputs|
  {
    if inputs != [] {
      var t := Step(s, inputs[0]);
      assert |s.events| <= |t.events| && t.events[..|s.events|] == s.events;
      EventsGrow(t, inputs[1..]);
      assert Run(s, inputs).events[..|t.events|][..|s.events|] == Run(s, inputs).events[..|s.events|];
    }
  }

  /** An `AP` object over a running `create_ap` process. */
  class AP {
    var started: bool
    var killing: bool
    var attached: bool
    var events: seq<Event>
    var signals: seq<string>

    function Snapshot(): State
      reads this
    {
      State(started, killing, attached, events, signals)
    }

    /** `new AP(p)`: attached to `p`, neither started nor killing. */
    constructor()
      ensures Snapshot() == Initial
    {
      started := false;
      killing := false;
      attached := true;
      events := [];
      signals := [];
    }

    /** `active`. */
    predicate IsActive()
      reads this
    {
      Active(Snapshot())
    }

    /** `_close`. */
    method Finalize()
      modifies this
      ensures Snapshot() == Finish(old(Snapshot()))
    {
      if attached {
        started := false;
        killing := false;
        attached := false;
        events := events + [Closed];
      }
    }

    /** `_handleStatusData(data)`. */
    method HandleStatusData(data: string)
      modifies this
      ensures Snapshot() == OnStdout(old(Snapshot()), data)
    {
      events := events + [Stdout(data)];
      if Text.Contains(data, "AP-ENABLED") {
        started := true;
        events := events + [Started];
      }
      if killing {
        if Text.Contains(data, "done") {
          Finalize();
        }
      }
    }

    /** `_handleErrorData(data)`. */
    method HandleErrorData(data: string)
      modifies this
      ensures Snapshot() == Step(old(Snapshot()), StderrData(data))
    {
      events := events + [Stderr(data)];
    }

    /** The process's `error` event, passed on. */
    method HandleProcessError(err: string)
      modifies this
      ensures Snapshot() == Step(old(Snapshot()), ProcessError(err))
    {
      events := events + [Error(err)];
    }

    /** `close(sig)`; `failed` stands for the wait timing out. */
    method Close(sig: string, failed: bool)
      modifies this
      ensures Snapshot() == OnClose(old(Snapshot()), sig, failed)
    {
      if !attached {
        return;
      }
      if !killing {
        killing := true;
        signals := signals + [sig];
      }
      if failed {
        Finalize();
      }
    }
  }

  /** `AP.create(name, options)`: the command line, and an `AP` on the
      process started from it. */
  method Create(installed: bool, script: string, name: Option<string>, options: Option<Options>, devs: seq<Iw.Device>)
    returns (r: Result<string, string>, ap: AP?)
    ensures var a := CreateArgs(installed, script, name, options, devs);
      r == if a.Ok? then Ok(Line(a.value)) else Err(a.error)
    ensures r.Ok? <==> ap != null
    ensures ap != null ==> fresh(ap) && ap.Snapshot() == Initial
  {
    r := CommandLine(installed, script, name, options, devs);
    if r.Ok? {
      ap := new AP();
    } else {
      ap := null;
    }
  }
}
