/** lib/wpa-monitor.js: the event monitor attached to an interactive
    `wpa_cli -i <iface>` process.  Each chunk the process prints is cut into
    lines; every line is announced as `data`, and lines carrying a level-3
    control message (`<3>CTRL…`) are classified into a `control` event and,
    for six well-known tags, one friendly event. */
module WpaMonitor {
  import opened Common
  import opened Text
  import opened Record

  /** The second argument of `control` and of the friendly events. */
  datatype EventArgs =
    | NoArgs                    // `undefined`: nothing after the tag
    | Msg(msg: string)          // `{msg}` for a connection event
    | Fields(fields: Rec)       // `key=value` pairs

  /** What the monitor emits to its listeners. */
  datatype Event =
    | Data(line: string)
    | Control(tag: string, args: EventArgs)
    | Named(name: string, args: EventArgs)
    | Error(message: string)
    | Closed(code: int)

  /** The six tags with a friendly event name. */
  const EventNames: map<string, string> := map[
    "CTRL-EVENT-SCAN-STARTED" := "scanning",
    "CTRL-EVENT-SCAN-RESULTS" := "scanned",
    "CTRL-EVENT-CONNECTED" := "connected",
    "CTRL-EVENT-DISCONNECTED" := "disconnected",
    "CTRL-EVENT-SSID-TEMP-DISABLED" := "invalidkey",
    "CTRL-EVENT-TERMINATING" := "terminating"]

  // ---------------------------------------------------------------- lines

  /** The pieces worth handling: trimmed, and neither empty nor the `>` prompt. */
  function Kept(pieces: seq<string>): seq<string> {
    if pieces == [] then []
    else
      var t := Trim(pieces[0]);
      (if t != "" && t != ">" then [t] else []) + Kept(pieces[1..])
  }

  /** What is kept is no longer than the input, and every kept line is
      trimmed, non-empty and not a prompt. */
  lemma {:induction false} KeptClean(pieces: seq<string>)
    ensures var r := Kept(pieces);
      && |r| <= |pieces|
      && forall i :: 0 <= i < |r| ==> r[i] != "" && r[i] != ">" && Trimmed(r[i])
  {
    if pieces != [] {
      KeptClean(pieces[1..]);
    }
  }

  /** The lines a stdout chunk holds: split on `\n` or `\r`, then kept. */
  function ChunkLines(chunk: string): seq<string> {
    Kept(Split(chunk, {'\n', '\r'}))
  }

  /** A line the process can print and the splitter hands on unchanged. */
  predicate PlainLine(line: string) {
    line != "" && line != ">" && Trimmed(line) && Avoids(line, {'\n', '\r'})
  }

  lemma {:induction false} KeptConcat(a: seq<string>, b: seq<string>)
    ensures Kept(a + b) == Kept(a) + Kept(b)
  {
    if a != [] {
      KeptConcat(a[1..], b);
      assert (a + b)[1..] == a[1..] + b;
    } else {
      assert a + b == b;
    }
  }

  lemma {:induction false} KeptPlain(lines: seq<string>)
    requires forall i :: 0 <= i < |lines| ==> PlainLine(lines[i])
    ensures Kept(lines) == lines
  {
    if lines != [] {
      TrimOfTrimmed(lines[0]);
      KeptPlain(lines[1..]);
      assert lines == [lines[0]] + lines[1..];
    }
  }

  /** Plain lines printed one per row come back out of the splitter
      exactly; `KeptSkips` adds blank rows and prompts between them. */
  lemma ChunkLinesOfJoin(lines: seq<string>)
    requires |lines| >= 1
    requires forall i :: 0 <= i < |lines| ==> PlainLine(lines[i])
    ensures ChunkLines(Join(lines, "\n")) == lines
  {
    SplitJoin(lines, '\n', {'\n', '\r'});
    KeptPlain(lines);
  }

  /** A blank piece or a bare prompt is dropped wherever it occurs. */
  lemma KeptSkips(a: seq<string>, p: string, b: seq<string>)
    requires Trim(p) == "" || Trim(p) == ">"
    ensures Kept(a + [p] + b) == Kept(a) + Kept(b)
  {
    assert Kept([p]) == [] by {
      assert [p][1..] == [];
    }
    assert Kept(a + [p]) == Kept(a) by {
      KeptConcat(a, [p]);
      assert Kept(a) + [] == Kept(a);
    }
    KeptConcat(a + [p], b);
  }

  // ---------------------------------------------------------------- tags

  predicate IsTagChar(c: char) {
    'A' <= c <= 'Z' || c == '-'
  }

  /** The maximal run of tag characters starting at index `i`. */
  function TagRun(s: string, i: nat): (r: string)
    requires i <= |s|
    ensures i + |r| <= |s|
    decreases |s| - i
  {
    if i < |s| && IsTagChar(s[i]) then [s[i]] + TagRun(s, i + 1) else ""
  }

  /** The run is the text at `i`, made of tag characters, and maximal. */
  lemma {:induction false} TagRunMaximal(s: string, i: nat)
    requires i <= |s|
    ensures var r := TagRun(s, i);
      && r == s[i..i + |r|]
      && (forall j :: 0 <= j < |r| ==> IsTagChar(r[j]))
      && (i + |r| == |s| || !IsTagChar(s[i + |r|]))
    decreases |s| - i
  {
    if i < |s| && IsTagChar(s[i]) {
      TagRunMaximal(s, i + 1);
    }
  }

  /** The index of the first tag character at or after `i`, if any. */
  function TagStart(s: string, i: nat): (r: Option<nat>)
    requires i <= |s|
    ensures r.Some? ==> i <= r.value < |s|
    decreases |s| - i
  {
    if i == |s| then None
    else if IsTagChar(s[i]) then Some(i)
    else TagStart(s, i + 1)
  }

  lemma {:induction false} TagStartFirst(s: string, i: nat)
    requires i <= |s|
    ensures var r := TagStart(s, i);
      && (r.Some? ==> IsTagChar(s[r.value]) && forall j :: i <= j < r.value ==> !IsTagChar(s[j]))
      && (r.None? ==> forall j :: i <= j < |s| ==> !IsTagChar(s[j]))
    decreases |s| - i
  {
    if i < |s| && !IsTagChar(s[i]) {
      TagStartFirst(s, i + 1);
    }
  }

  /** The tag of a control message: the first maximal run of `A`–`Z` and `-`. */
  function Tag(s: string): Option<string> {
    var start := TagStart(s, 0);
    if start.None? then None else Some(TagRun(s, start.value))
  }

  /** There is no tag exactly when no character is a tag character; a tag is
      a non-empty, maximal run of tag characters, preceded by none. */
  lemma TagSpec(s: string)
    ensures Tag(s).None? <==> forall j :: 0 <= j < |s| ==> !IsTagChar(s[j])
    ensures Tag(s).Some? ==> var i := TagStart(s, 0).value;
      && i + |Tag(s).value| <= |s| && s[i..i + |Tag(s).value|] == Tag(s).value
      && (forall j :: 0 <= j < i ==> !IsTagChar(s[j]))
      && (i + |Tag(s).value| == |s| || !IsTagChar(s[i + |Tag(s).value|]))
    ensures Tag(s).Some? ==> Tag(s).value != "" && forall j :: 0 <= j < |Tag(s).value| ==> IsTagChar(Tag(s).value[j])
  {
    TagStartFirst(s, 0);
    var start := TagStart(s, 0);
    if start.Some? {
      var i := start.value;
      TagRunMaximal(s, i);
      assert TagRun(s, i) != "" by {
        assert TagRun(s, i) == [s[i]] + TagRun(s, i + 1);
      }
    }
  }

  /** A text that begins with a complete tag has that tag. */
  lemma {:induction false} TagOfPrefix(t: string, rest: string)
    requires t != "" && forall j :: 0 <= j < |t| ==> IsTagChar(t[j])
    requires rest == [] || !IsTagChar(rest[0])
    ensures Tag(t + rest) == Some(t)
  {
    var s := t + rest;
    assert s[0] == t[0];
    assert TagStart(s, 0) == Some(0);
    TagRunOfPrefix(t, rest, 0);
  }

  lemma {:induction false} TagRunOfPrefix(t: string, rest: string, i: nat)
    requires i <= |t| && forall j :: 0 <= j < |t| ==> IsTagChar(t[j])
    requires rest == [] || !IsTagChar(rest[0])
    ensures TagRun(t + rest, i) == t[i..]
    decreases |t| - i
  {
    var s := t + rest;
    if i < |t| {
      TagRunOfPrefix(t, rest, i + 1);
      assert s[i] == t[i];
      assert t[i..] == [t[i]] + t[i + 1..];
    } else if rest != [] {
      assert s[i] == rest[0];
    }
  }

  // ---------------------------------------------------------------- arguments

  /** The entry one `key=value` part gives: the text before the first `=`,
      and the text between the first and second `=` if there is one. */
  function PairOf(part: string): Entry {
    var kv := Split(part, {'='});
    (kv[0], if |kv| > 1 then Some(kv[1]) else None)
  }

  function PairsOf(parts: seq<string>): (r: seq<Entry>)
    ensures |r| == |parts| && forall i :: 0 <= i < |parts| ==> r[i] == PairOf(parts[i])
  {
    seq(|parts|, i requires 0 <= i < |parts| => PairOf(parts[i]))
  }

  const Blanks := {' ', '\t'}

  /** lodash `fromPairs` over the space- or tab-separated parts of the text. */
  function FieldsOf(other: string): Rec {
    Build(PairsOf(Split(other, Blanks)))
  }

  /** A key is present exactly when some part names it. */
  lemma FieldsKeys(other: string, k: string)
    ensures k in FieldsOf(other) ==> exists i :: 0 <= i < |Split(other, Blanks)| && PairOf(Split(other, Blanks)[i]).0 == k
    ensures (exists i :: 0 <= i < |Split(other, Blanks)| && PairOf(Split(other, Blanks)[i]).0 == k) ==> k in FieldsOf(other)
  {
    var parts := Split(other, Blanks);
    var es := PairsOf(parts);
    assert k in FieldsOf(other) <==> exists v :: (k, v) in es by {
      BuildKeys(es, k);
    }
    if k in FieldsOf(other) {
      var v :| (k, v) in es;
      var i :| 0 <= i < |es| && es[i] == (k, v);
      assert 0 <= i < |parts| && PairOf(parts[i]).0 == k;
    }
    if exists i :: 0 <= i < |parts| && PairOf(parts[i]).0 == k {
      var i :| 0 <= i < |parts| && PairOf(parts[i]).0 == k;
      assert (k, es[i].1) in es by {
        assert (k, es[i].1) == es[i];
      }
      assert k in FieldsOf(other);
    }
  }

  /** One `key=value` part with a plain key and value reads back as that pair. */
  lemma FieldsOfPair(k: string, v: string)
    requires Avoids(k, {' ', '\t', '='}) && Avoids(v, {' ', '\t', '='})
    ensures FieldsOf(k + "=" + v) == map[k := Some(v)]
  {
    var part := k + "=" + v;
    SplitJoin([k, v], '=', {'='});
    assert Join([k, v], "=") == part;
    assert Avoids(part, {' ', '\t'}) by {
      forall i | 0 <= i < |part| ensures part[i] !in {' ', '\t'} {
        if i < |k| { assert part[i] == k[i]; }
        else if i > |k| { assert part[i] == v[i - |k| - 1]; }
      }
    }
    SplitAvoiding(part, {' ', '\t'});
    var es := PairsOf([part]);
    assert es == [(k, Some(v))];
    assert es[..0] == [];
    assert Build(es) == Build([])[k := Some(v)];
  }

  /** The arguments of a control message with tag `tag` and remainder `other`. */
  function ArgsOf(tag: string, other: string): (r: EventArgs)
    ensures tag == "CTRL-EVENT-CONNECTED" ==> r.Msg? && r.msg == if |other| >= 2 then other[2..] else ""
    ensures tag != "CTRL-EVENT-CONNECTED" ==> (r.NoArgs? <==> other == "")
    ensures tag != "CTRL-EVENT-CONNECTED" && other != "" ==> r == Fields(FieldsOf(other))
  {
    if tag == "CTRL-EVENT-CONNECTED" then Msg(if |other| >= 2 then other[2..] else "")
    else if other != "" then Fields(FieldsOf(other))
    else NoArgs
  }

  /** The text after a control message's tag: the message is cut after as
      many characters as the tag is long, counted from its start, and trimmed. */
  function Remainder(data: string, tag: string): string {
    Trim(data[if |tag| <= |data| then |tag| else |data|..])
  }

  /** The events a control message gives: `control` with its tag and
      arguments, then the friendly event when the tag has one, with the same
      arguments; no tag, no events. */
  function CtrlEvents(data: string): (r: seq<Event>)
    ensures Tag(data).None? ==> r == []
    ensures Tag(data).Some? ==> 1 <= |r| <= 2 && r[0] == Control(Tag(data).value, ArgsOf(Tag(data).value, Remainder(data, Tag(data).value)))
    ensures Tag(data).Some? ==> (|r| == 2 <==> Tag(data).value in EventNames)
    ensures |r| == 2 ==> r[1] == Named(EventNames[r[0].tag], r[0].args)
  {
    match Tag(data)
    case None => []
    case Some(tag) =>
      var args := ArgsOf(tag, Remainder(data, tag));
      [Control(tag, args)] + (if tag in EventNames then [Named(EventNames[tag], args)] else [])
  }

  /** `_handle(line)`: the trimmed line as `data`, then, when it contains
      `<3>CTRL`, the events of the text after its first 3 characters. */
  function LineEvents(line: string): (r: seq<Event>)
    ensures |r| >= 1 && r[0] == Data(Trim(line))
    ensures !Contains(Trim(line), "<3>CTRL") ==> |r| == 1
  {
    var data := Trim(line);
    [Data(data)] + (if Contains(data, "<3>CTRL") && |data| >= 3 then CtrlEvents(data[3..]) else [])
  }

  /** The events of a list of lines: each line's events, in order. */
  function FlatMap(f: string -> seq<Event>, lines: seq<string>): seq<Event> {
    if lines == [] then [] else f(lines[0]) + FlatMap(f, lines[1..])
  }

  lemma FlatMapSnoc(f: string -> seq<Event>, a: seq<string>, x: string)
    ensures FlatMap(f, a + [x]) == FlatMap(f, a) + f(x)
  {
    FlatMapConcat(f, a, [x]);
    assert FlatMap(f, [x]) == f(x) + FlatMap(f, [x][1..]);
    assert [x][1..] == [];
  }

  lemma FlatMapPrefix(f: string -> seq<Event>, lines: seq<string>, i: nat)
    requires i < |lines|
    ensures FlatMap(f, lines[..i + 1]) == FlatMap(f, lines[..i]) + f(lines[i])
  {
    assert lines[..i + 1] == lines[..i] + [lines[i]];
    FlatMapSnoc(f, lines[..i], lines[i]);
  }

  lemma {:induction false} FlatMapConcat(f: string -> seq<Event>, a: seq<string>, b: seq<string>)
    ensures FlatMap(f, a + b) == FlatMap(f, a) + FlatMap(f, b)
  {
    if a != [] {
      FlatMapConcat(f, a[1..], b);
      assert (a + b)[1..] == a[1..] + b;
    } else {
      assert a + b == b;
    }
  }

  /** The events of a whole chunk: each kept line's events, in order. */
  function ChunkEvents(chunk: string): seq<Event> {
    FlatMap(LineEvents, ChunkLines(chunk))
  }

  /** The lines announced by a run of events, in order. */
  function DataOf(es: seq<Event>): seq<string> {
    if es == [] then [] else (if es[0].Data? then [es[0].line] else []) + DataOf(es[1..])
  }

  lemma {:induction false} DataOfConcat(a: seq<Event>, b: seq<Event>)
    ensures DataOf(a + b) == DataOf(a) + DataOf(b)
  {
    if a != [] {
      DataOfConcat(a[1..], b);
      assert (a + b)[1..] == a[1..] + b;
    } else {
      assert a + b == b;
    }
  }

  /** Each handled line is announced exactly once, as its trimmed text, and
      the control events that may follow announce nothing. */
  lemma LineData(line: string)
    ensures DataOf(LineEvents(line)) == [Trim(line)]
  {
    var es := LineEvents(line);
    var rest := es[1..];
    assert es == [es[0]] + rest;
    DataOfConcat([es[0]], rest);
    if |rest| > 0 {
      assert rest[0].Control?;
      if |rest| > 1 {
        assert rest[1].Named?;
        assert rest[1..][1..] == [];
      }
    }
  }

  lemma {:induction false} DataOfFlatMap(f: string -> seq<Event>, lines: seq<string>)
    requires forall x :: DataOf(f(x)) == [Trim(x)]
    requires forall i :: 0 <= i < |lines| ==> Trimmed(lines[i])
    ensures DataOf(FlatMap(f, lines)) == lines
  {
    if lines != [] {
      DataOfFlatMap(f, lines[1..]);
      DataOfConcat(f(lines[0]), FlatMap(f, lines[1..]));
      TrimOfTrimmed(lines[0]);
      assert lines == [lines[0]] + lines[1..];
    }
  }

  /** Every kept line of a chunk is announced as `data`, once and in order. */
  lemma ChunkData(chunk: string)
    ensures DataOf(ChunkEvents(chunk)) == ChunkLines(chunk)
  {
    forall x ensures DataOf(LineEvents(x)) == [Trim(x)] {
      LineData(x);
    }
    KeptClean(Split(chunk, {'\n', '\r'}));
    DataOfFlatMap(LineEvents, ChunkLines(chunk));
  }

  /** A connection report: `control` with the message after the dash, then `connected`. */
  lemma ConnectedCtrl(m: string)
    requires Trimmed(m) && m != ""
    ensures CtrlEvents("CTRL-EVENT-CONNECTED" + (" - " + m))
         == [Control("CTRL-EVENT-CONNECTED", Msg(m)), Named("connected", Msg(m))]
  {
    var tag := "CTRL-EVENT-CONNECTED";
    assert Tag(tag + (" - " + m)) == Some(tag) by {
      ConnectedTag(" - " + m);
    }
    assert Remainder(tag + (" - " + m), tag) == "- " + m by {
      DashRemainder(tag, m);
    }
    assert ArgsOf(tag, "- " + m) == Msg(m) by {
      assert ("- " + m)[2..] == m;
    }
    assert tag in EventNames && EventNames[tag] == "connected";
  }

  lemma ConnectedTag(rest: string)
    requires rest == [] || !IsTagChar(rest[0])
    ensures Tag("CTRL-EVENT-CONNECTED" + rest) == Some("CTRL-EVENT-CONNECTED")
  {
    var tag := "CTRL-EVENT-CONNECTED";
    assert forall j :: 0 <= j < |tag| ==> IsTagChar(tag[j]);
    TagOfPrefix(tag, rest);
  }

  /** The remainder after a tag followed by ` - `. */
  lemma DashRemainder(tag: string, m: string)
    requires Trimmed(m) && m != ""
    ensures Remainder(tag + (" - " + m), tag) == "- " + m
  {
    var data := tag + (" - " + m);
    var after := data[|tag|..];
    assert after == " - " + m;
    assert TrimStart(after) == TrimStart(after[1..]);
    assert after[1..] == "- " + m;
    TrimOfTrimmed("- " + m);
  }

  /** A trimmed line `<3>` followed by a control message gives `data`, then
      that message's events. */
  lemma LineOfCtrl(d: string)
    requires |d| >= 4 && d[..4] == "CTRL" && Trimmed(d)
    ensures LineEvents("<3>" + d) == [Data("<3>" + d)] + CtrlEvents(d)
  {
    var line := "<3>" + d;
    assert Trim(line) == line by {
      TrimOfTrimmed(line);
    }
    assert Contains(line, "<3>CTRL") by {
      assert line[..7] == "<3>CTRL";
      assert StartsWith(line[0..], "<3>CTRL");
      ContainsAt(line, "<3>CTRL", 0);
    }
    assert line[3..] == d;
  }

  // ---------------------------------------------------------------- the monitor

  /** The `Monitor` class.  `attached` says whether a `wpa_cli` process is
      held (`this.ps` non-null); `listening` whether listeners are still
      registered; `events` is what they have received. */
  class Monitor {
    const iface: string
    var attached: bool
    var spawns: nat
    var kills: nat
    var listening: bool
    var events: seq<Event>

    /** `new Monitor(iface)`: an empty name falls back to `wlan0`, and the
        process is spawned at once. */
    constructor (iface: string)
      ensures this.iface == (if iface == "" then "wlan0" else iface)
      ensures attached && spawns == 1 && kills == 0 && listening && events == []
    {
      this.iface := if iface == "" then "wlan0" else iface;
      attached := true;
      spawns := 1;
      kills := 0;
      listening := true;
      events := [];
    }

    /** `_setup()`: spawns a process only when none is attached. */
    method Setup()
      modifies this
      ensures attached
      ensures spawns == if old(attached) then old(spawns) else old(spawns) + 1
      ensures kills == old(kills) && listening == old(listening) && events == old(events)
    {
      if !attached {
        attached := true;
        spawns := spawns + 1;
      }
    }

    /** `close()`: kills the process and forgets it.  With no process
        attached, the call dereferences null and throws. */
    method Close() returns (r: Result<(), string>)
      modifies this
      ensures r.Err? <==> !old(attached)
      ensures !attached
      ensures kills == if old(attached) then old(kills) + 1 else old(kills)
      ensures spawns == old(spawns) && listening == old(listening) && events == old(events)
    {
      if !attached {
        return Err("Cannot read properties of null (reading 'kill')");
      }
      attached := false;
      kills := kills + 1;
      r := Ok(());
    }

    /** Delivers one event, if anybody is still listening. */
    method Emit(e: Event)
      modifies this
      ensures events == if old(listening) then old(events) + [e] else old(events)
      ensures attached == old(attached) && spawns == old(spawns) && kills == old(kills) && listening == old(listening)
    {
      if listening {
        events := events + [e];
      }
    }

    /** The process exited: all listeners are removed first, so the `close`
        event that follows reaches nobody. */
    method OnProcessClose(code: int)
      modifies this
      ensures !listening && events == old(events)
      ensures attached == old(attached) && spawns == old(spawns) && kills == old(kills)
    {
      listening := false;
      Emit(Closed(code));
    }

    /** Text on the process's stderr becomes an `error` event. */
    method OnStderr(text: string)
      modifies this
      ensures events == if old(listening) then old(events) + [Error(text)] else old(events)
      ensures attached == old(attached) && spawns == old(spawns) && kills == old(kills) && listening == old(listening)
    {
      Emit(Error(text));
    }

    /** `_handleCtrlEvent(data)`. */
    method HandleCtrl(data: string)
      modifies this
      ensures events == if old(listening) then old(events) + CtrlEvents(data) else old(events)
      ensures attached == old(attached) && spawns == old(spawns) && kills == old(kills) && listening == old(listening)
    {
      var tag := Tag(data);
      if tag.None? {
        return;
      }
      var args := ArgsOf(tag.value, Remainder(data, tag.value));
      Emit(Control(tag.value, args));
      if tag.value in EventNames {
        Emit(Named(EventNames[tag.value], args));
      }
    }

    /** `_handle(line)`. */
    method Handle(line: string)
      modifies this
      ensures events == if old(listening) then old(events) + LineEvents(line) else old(events)
      ensures attached == old(attached) && spawns == old(spawns) && kills == old(kills) && listening == old(listening)
    {
      var data := Trim(line);
      ghost var ctrl := if Contains(data, "<3>CTRL") && |data| >= 3 then CtrlEvents(data[3..]) else [];
      assert LineEvents(line) == [Data(data)] + ctrl;
      Emit(Data(data));
      if Contains(data, "<3>CTRL") && |data| >= 3 {
        HandleCtrl(data[3..]);
      }
      assert listening ==> events == old(events) + [Data(data)] + ctrl;
      AppendAssoc(old(events), [Data(data)], ctrl);
    }

    /** A chunk on stdout: its kept lines are handled in order. */
    method OnStdout(chunk: string)
      modifies this
      ensures events == if old(listening) then old(events) + ChunkEvents(chunk) else old(events)
      ensures attached == old(attached) && spawns == old(spawns) && kills == old(kills) && listening == old(listening)
    {
      HandleLines(ChunkLines(chunk));
    }

    /** The `forEach` over the lines of a chunk. */
    method HandleLines(lines: seq<string>)
      modifies this
      ensures events == if old(listening) then old(events) + FlatMap(LineEvents, lines) else old(events)
      ensures attached == old(attached) && spawns == old(spawns) && kills == old(kills) && listening == old(listening)
    {
      var i := 0;
      while i < |lines|
        invariant 0 <= i <= |lines|
        invariant listening == old(listening)
        invariant !listening ==> events == old(events)
        invariant listening ==> events == old(events) + FlatMap(LineEvents, lines[..i])
        invariant attached == old(attached) && spawns == old(spawns) && kills == old(kills)
      {
        ghost var done := FlatMap(LineEvents, lines[..i]);
        Handle(lines[i]);
        assert FlatMap(LineEvents, lines[..i + 1]) == done + LineEvents(lines[i]) by {
          FlatMapPrefix(LineEvents, lines, i);
        }
        assert listening ==> events == old(events) + (done + LineEvents(lines[i])) by {
          AppendAssoc(old(events), done, LineEvents(lines[i]));
        }
        i := i + 1;
      }
      assert lines[..i] == lines;
    }
  }
}
