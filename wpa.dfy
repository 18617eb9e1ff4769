/** lib/wpa.js: the `wpa_cli` command client and the parsers for its replies.
    Every command is one `wpa_cli -i <iface> <cmd> <args...>` line; the client
    keeps the lines it has sent (`sent`) and talks to the daemon modelled in
    module Supplicant. */
module Wpa {
  import opened Common
  import opened Text
  import opened Supplicant
  import opened Record
  import Shell

  // ---------------------------------------------------------------- exec

  /** The argument forms `exec` accepts: none, one non-array value, or an array. */
  datatype Args = NoArgs | One(arg: string) | Many(list: seq<string>)

  /** `exec` turns a missing or falsy argument into no arguments, and any
      other non-array argument into a one-element list. */
  function ArgList(a: Args): (r: seq<string>)
    ensures a.NoArgs? ==> r == []
    ensures a.One? ==> r == if a.arg == "" then [] else [a.arg]
    ensures a.Many? ==> r == a.list
  {
    match a
    case NoArgs => []
    case One(x) => if x == "" then [] else [x]
    case Many(xs) => xs
  }

  /** The shell line `exec` runs: `wpa_cli`, `-i`, the interface, the command
      and its arguments, joined by single spaces. */
  function CommandLine(iface: string, cmd: string, args: seq<string>): string {
    Join(["wpa_cli", "-i", iface, cmd] + args, " ")
  }

  /** When no token contains a space, the line splits back into exactly the
      tokens it was built from, so the line determines the command sent. */
  lemma CommandLineTokens(iface: string, cmd: string, args: seq<string>)
    requires Avoids(iface, {' '}) && Avoids(cmd, {' '})
    requires forall i :: 0 <= i < |args| ==> Avoids(args[i], {' '})
    ensures Split(CommandLine(iface, cmd, args), {' '}) == ["wpa_cli", "-i", iface, cmd] + args
  {
    var toks := ["wpa_cli", "-i", iface, cmd] + args;
    forall i | 0 <= i < |toks| ensures Avoids(toks[i], {' '}) {
      if i >= 4 { assert toks[i] == args[i - 4]; }
    }
    SplitJoin(toks, ' ', {' '});
  }

  /** The errors the client raises. */
  datatype Failure =
    | CommandFailed(line: string)      // the reply was FAIL; carries the full command line
    | ScanRefused(reply: string)       // `scan` did not answer OK; carries that reply
    | MissingScanField(row: string)    // a 4-field scan row (see ScanRowsAsWritten)

  /** The error text `exec` throws: it names the whole command line. */
  function Message(e: Failure): string {
    match e
    case CommandFailed(line) => "Command failed: " + line
    case ScanRefused(reply) => reply
    case MissingScanField(row) => "Cannot read properties of undefined (reading 'trim')"
  }

  /** What `exec` makes of the command's output: the trimmed text, unless that
      is exactly `FAIL`, which becomes an error naming the command line. */
  function Reply(line: string, stdout: string): (r: Result<string, Failure>)
    ensures r.Err? <==> Trim(stdout) == "FAIL"
    ensures r.Err? ==> r.error == CommandFailed(line) && Message(r.error) == "Command failed: " + line
    ensures r.Ok? ==> r.value == Trim(stdout) && Trimmed(r.value)
  {
    var out := Trim(stdout);
    if out == "FAIL" then Err(CommandFailed(line)) else Ok(out)
  }

  // ---------------------------------------------------------------- status

  /** Status records map keys to values; a line without `=` leaves its key
      mapped to `undefined` (`None`). */
  type StatusRecord = Rec

  /** The key and value one status line contributes: the trimmed text before
      the first `=`, and the trimmed text between the first and second `=`. */
  function StatusEntry(line: string): Entry {
    var parts := Split(line, {'='});
    (Trim(parts[0]), if |parts| > 1 then Some(Trim(parts[1])) else None)
  }

  /** The entries `f` reads from the lines longer than 3 characters, in order. */
  function LongEntries(f: string -> Entry, lines: seq<string>): (r: seq<Entry>)
    ensures |r| <= |lines|
  {
    if lines == [] then []
    else
      var line := lines[|lines| - 1];
      LongEntries(f, lines[..|lines| - 1]) + (if |line| > 3 then [f(line)] else [])
  }

  /** The entries the status lines contribute. */
  function Entries(lines: seq<string>): seq<Entry> {
    LongEntries(StatusEntry, lines)
  }

  /** The record the status lines build: only lines longer than 3 characters
      count, each assigns its entry, and later lines overwrite earlier ones. */
  function StatusOf(lines: seq<string>): StatusRecord {
    Build(Entries(lines))
  }

  /** The lines of a reply. */
  function Lines(reply: string): seq<string> {
    Split(reply, {'\n'})
  }

  /** `status`'s parse: split the reply into lines and assign each long
      line's entry into the record, in order. */
  method ParseStatus(reply: string) returns (status: StatusRecord)
    ensures status == StatusOf(Lines(reply))
  {
    var lines := Lines(reply);
    status := map[];
    var i := 0;
    while i < |lines|
      invariant 0 <= i <= |lines|
      invariant status == Build(Entries(lines[..i]))
    {
      var line := lines[i];
      if |line| > 3 {
        var entry := StatusEntry(line);
        status := status[entry.0 := entry.1];
      }
      assert status == Build(Entries(lines[..i + 1])) by {
        StatusStep(lines, i);
      }
      i := i + 1;
    }
    assert lines[..|lines|] == lines;
  }

  /** One more line assigns its entry if it is long, and nothing otherwise. */
  lemma StatusStep(lines: seq<string>, i: nat)
    requires i < |lines|
    ensures var line := lines[i];
      Build(Entries(lines[..i + 1])) ==
        if |line| > 3 then Build(Entries(lines[..i]))[StatusEntry(line).0 := StatusEntry(line).1]
        else Build(Entries(lines[..i]))
  {
    var prefix := lines[..i + 1];
    assert prefix[..|prefix| - 1] == lines[..i] && prefix[|prefix| - 1] == lines[i];
    var es := Entries(lines[..i]);
    if |lines[i]| > 3 {
      var entry := StatusEntry(lines[i]);
      assert Entries(prefix) == es + [entry];
      assert (es + [entry])[..|es|] == es;
    } else {
      assert Entries(prefix) == es + [];
      assert es + [] == es;
    }
  }

  /** The entries are exactly those of the long lines. */
  lemma {:induction false} LongEntriesOf(f: string -> Entry, lines: seq<string>, e: Entry)
    ensures e in LongEntries(f, lines) <==> exists i :: 0 <= i < |lines| && |lines[i]| > 3 && f(lines[i]) == e
  {
    if lines != [] {
      var init := lines[..|lines| - 1];
      var last := lines[|lines| - 1];
      assert e in LongEntries(f, init) <==> exists i :: 0 <= i < |init| && |init[i]| > 3 && f(init[i]) == e by {
        LongEntriesOf(f, init, e);
      }
      assert e in LongEntries(f, lines) <==> e in LongEntries(f, init) || (|last| > 3 && f(last) == e);
      if exists i :: 0 <= i < |init| && |init[i]| > 3 && f(init[i]) == e {
        var i :| 0 <= i < |init| && |init[i]| > 3 && f(init[i]) == e;
        assert lines[i] == init[i];
      }
      if exists i :: 0 <= i < |lines| && |lines[i]| > 3 && f(lines[i]) == e {
        var i :| 0 <= i < |lines| && |lines[i]| > 3 && f(lines[i]) == e;
        if i < |init| {
          assert init[i] == lines[i];
        }
      }
    }
  }

  /** A status key is present exactly when some line longer than 3
      characters has it. */
  lemma StatusKeys(lines: seq<string>, k: string)
    ensures k in StatusOf(lines) <==> exists i :: 0 <= i < |lines| && |lines[i]| > 3 && StatusEntry(lines[i]).0 == k
  {
    BuildKeys(Entries(lines), k);
    if k in StatusOf(lines) {
      var v :| (k, v) in Entries(lines);
      LongEntriesOf(StatusEntry, lines, (k, v));
    }
    if exists i :: 0 <= i < |lines| && |lines[i]| > 3 && StatusEntry(lines[i]).0 == k {
      var i :| 0 <= i < |lines| && |lines[i]| > 3 && StatusEntry(lines[i]).0 == k;
      LongEntriesOf(StatusEntry, lines, StatusEntry(lines[i]));
    }
  }

  lemma {:induction false} LongEntriesConcat(f: string -> Entry, a: seq<string>, b: seq<string>)
    ensures LongEntries(f, a + b) == LongEntries(f, a) + LongEntries(f, b)
  {
    if b != [] {
      LongEntriesConcat(f, a, b[..|b| - 1]);
      assert (a + b)[..|a + b| - 1] == a + b[..|b| - 1];
    } else {
      assert a + b == a;
    }
  }

  /** Parsing two blocks of lines one after the other is parsing the first and
      letting the second overwrite it. */
  lemma StatusConcat(a: seq<string>, b: seq<string>)
    ensures StatusOf(a + b) == StatusOf(a) + StatusOf(b)
  {
    LongEntriesConcat(StatusEntry, a, b);
    BuildConcat(Entries(a), Entries(b));
  }

  /** A block of status lines repeated twice parses to the same record as the block once. */
  lemma StatusRepeated(a: seq<string>)
    ensures StatusOf(a + a) == StatusOf(a)
  {
    StatusConcat(a, a);
  }

  /** A `key=value` line with trimmed key and value free of `=` reads back as
      that key and value. */
  lemma StatusEntryOfPair(k: string, v: string)
    requires Trimmed(k) && Trimmed(v) && Avoids(k, {'='}) && Avoids(v, {'='})
    ensures StatusEntry(k + "=" + v) == (k, Some(v))
  {
    SplitJoin([k, v], '=', {'='});
    assert Join([k, v], "=") == k + "=" + v;
  }

  // ---------------------------------------------------------------- scan_result

  /** One access point of the `scan_result` table. */
  datatype ScanRow = ScanRow(bssid: string, freq: string, rssi: string, ssid: string)

  /** The tab-separated fields of every line after the header. */
  function Records(reply: string): seq<seq<string>> {
    var lines := Lines(reply);
    seq(|lines| - 1, i requires 0 <= i < |lines| - 1 => Split(lines[i + 1], {'\t'}))
  }

  /** The scan rows as the source computes them: records with more than 3
      fields are kept in order, and each reads fields 0, 1, 2 and 4 — so a
      record of exactly 4 fields reads a missing field and the parse fails. */
  function ScanRowsAsWritten(records: seq<seq<string>>): (r: Result<seq<ScanRow>, Failure>)
    ensures r.Err? <==> exists i :: 0 <= i < |records| && |records[i]| == 4
  {
    if records == [] then Ok([])
    else
      var f := records[0];
      var rest := ScanRowsAsWritten(records[1..]);
      if |f| <= 3 then
        assert forall i :: 0 < i < |records| ==> records[i] == records[1..][i - 1];
        rest
      else if |f| == 4 then Err(MissingScanField(Join(f, "\t")))
      else if rest.Err? then rest
      else Ok([ScanRow(Trim(f[0]), Trim(f[1]), Trim(f[2]), Trim(f[4]))] + rest.value)
  }

  /** One kept scan record as a row; a missing ssid column reads as empty. */
  function ScanRowOf(f: seq<string>): ScanRow
    requires |f| > 3
  {
    ScanRow(Trim(f[0]), Trim(f[1]), Trim(f[2]), if |f| > 4 then Trim(f[4]) else "")
  }

  /** The scan rows with the missing-field fault removed: total, and equal to
      the source's result whenever that one exists. */
  function ScanRows(records: seq<seq<string>>): (r: seq<ScanRow>)
    ensures |r| <= |records|
  {
    if records == [] then []
    else (if |records[0]| > 3 then [ScanRowOf(records[0])] else []) + ScanRows(records[1..])
  }

  /** Wherever the source's scan parse succeeds, the corrected parse gives the same rows. */
  lemma {:induction false} ScanRowsAgree(records: seq<seq<string>>)
    requires ScanRowsAsWritten(records).Ok?
    ensures ScanRowsAsWritten(records).value == ScanRows(records)
  {
    if records != [] {
      assert forall i :: 0 < i < |records| ==> records[1..][i - 1] == records[i];
      ScanRowsAgree(records[1..]);
    }
  }

  /** One scan result as the daemon prints it: bssid, frequency, signal, flags, ssid. */
  function ScanLine(row: ScanRow, flags: string): string {
    Join([row.bssid, row.freq, row.rssi, flags, row.ssid], "\t")
  }

  /** Text with no tab, no line break and no surrounding whitespace: a table
      cell that survives splitting and trimming unchanged. */
  predicate Cell(s: string) {
    Avoids(s, {'\t', '\n'}) && Trimmed(s)
  }

  /** The fault: any table holding a row printed without its ssid column —
      bssid, frequency, signal and flags only — makes the source's parse fail,
      while the corrected parse reads that row with an empty ssid. */
  lemma ScanFourFieldRow(header: string, bssid: string, freq: string, rssi: string, flags: string)
    requires Avoids(header, {'\n'}) && Cell(bssid) && Cell(freq) && Cell(rssi) && Avoids(flags, {'\t', '\n'})
    ensures ScanRowsAsWritten(Records(header + "\n" + Join([bssid, freq, rssi, flags], "\t"))).Err?
    ensures ScanRows(Records(header + "\n" + Join([bssid, freq, rssi, flags], "\t"))) == [ScanRow(bssid, freq, rssi, "")]
  {
    var fields := [bssid, freq, rssi, flags];
    var row := Join(fields, "\t");
    JoinAvoids(fields, "\t", {'\n'});
    SplitJoin([header, row], '\n', {'\n'});
    assert Join([header, row], "\n") == header + "\n" + row;
    SplitJoin(fields, '\t', {'\t'});
    assert Records(header + "\n" + row) == [fields];
    TrimOfTrimmed(bssid);
    TrimOfTrimmed(freq);
    TrimOfTrimmed(rssi);
  }

  predicate CleanScanRow(row: ScanRow) {
    Cell(row.bssid) && Cell(row.freq) && Cell(row.rssi) && Cell(row.ssid)
  }

  lemma ScanLineReads(row: ScanRow, flags: string)
    requires CleanScanRow(row) && Avoids(flags, {'\t', '\n'})
    ensures |Split(ScanLine(row, flags), {'\t'})| > 3
    ensures ScanRowOf(Split(ScanLine(row, flags), {'\t'})) == row
  {
    var fields := [row.bssid, row.freq, row.rssi, flags, row.ssid];
    forall i | 0 <= i < 5 ensures Avoids(fields[i], {'\t'}) { }
    SplitJoin(fields, '\t', {'\t'});
    TrimOfTrimmed(row.bssid);
    TrimOfTrimmed(row.freq);
    TrimOfTrimmed(row.rssi);
    TrimOfTrimmed(row.ssid);
  }

  /** The lines of a printed scan table below its header. */
  function ScanLines(rows: seq<ScanRow>, flags: seq<string>): (r: seq<string>)
    requires |flags| == |rows|
    ensures |r| == |rows| && forall i :: 0 <= i < |rows| ==> r[i] == ScanLine(rows[i], flags[i])
  {
    seq(|rows|, i requires 0 <= i < |rows| => ScanLine(rows[i], flags[i]))
  }

  /** The records those lines split into. */
  function ScanRecordsOf(rows: seq<ScanRow>, flags: seq<string>): (r: seq<seq<string>>)
    requires |flags| == |rows|
    ensures |r| == |rows| && forall i :: 0 <= i < |rows| ==> r[i] == Split(ScanLine(rows[i], flags[i]), {'\t'})
  {
    seq(|rows|, i requires 0 <= i < |rows| => Split(ScanLine(rows[i], flags[i]), {'\t'}))
  }

  /** A table printed from clean rows parses back to exactly those rows, in order. */
  lemma ScanRoundTrip(header: string, rows: seq<ScanRow>, flags: seq<string>)
    requires |flags| == |rows| && Avoids(header, {'\n'})
    requires forall i :: 0 <= i < |rows| ==> CleanScanRow(rows[i]) && Avoids(flags[i], {'\t', '\n'})
    ensures ScanRows(Records(Join([header] + ScanLines(rows, flags), "\n"))) == rows
  {
    assert Records(Join([header] + ScanLines(rows, flags), "\n")) == ScanRecordsOf(rows, flags) by {
      RecordsOfScanTable(header, rows, flags);
    }
    ScanRowsOfRecords(rows, flags);
  }

  lemma RecordsOfScanTable(header: string, rows: seq<ScanRow>, flags: seq<string>)
    requires |flags| == |rows| && Avoids(header, {'\n'})
    requires forall i :: 0 <= i < |rows| ==> CleanScanRow(rows[i]) && Avoids(flags[i], {'\t', '\n'})
    ensures Records(Join([header] + ScanLines(rows, flags), "\n")) == ScanRecordsOf(rows, flags)
  {
    var lines := [header] + ScanLines(rows, flags);
    forall i | 0 <= i < |lines| ensures Avoids(lines[i], {'\n'}) {
      if i > 0 {
        var fields := [rows[i - 1].bssid, rows[i - 1].freq, rows[i - 1].rssi, flags[i - 1], rows[i - 1].ssid];
        JoinAvoids(fields, "\t", {'\n'});
      }
    }
    SplitJoin(lines, '\n', {'\n'});
  }

  lemma {:induction false} ScanRowsOfRecords(rows: seq<ScanRow>, flags: seq<string>)
    requires |flags| == |rows|
    requires forall i :: 0 <= i < |rows| ==> CleanScanRow(rows[i]) && Avoids(flags[i], {'\t', '\n'})
    ensures ScanRows(ScanRecordsOf(rows, flags)) == rows
  {
    if rows != [] {
      var recs := ScanRecordsOf(rows, flags);
      assert recs[1..] == ScanRecordsOf(rows[1..], flags[1..]) by {
        ScanRecordsTail(rows, flags);
      }
      assert |recs[0]| > 3 && ScanRowOf(recs[0]) == rows[0] by {
        ScanLineReads(rows[0], flags[0]);
      }
      assert ScanRows(recs[1..]) == rows[1..] by {
        ScanRowsOfRecords(rows[1..], flags[1..]);
      }
      ScanRowsCons(recs, rows);
    }
  }

  lemma ScanRecordsTail(rows: seq<ScanRow>, flags: seq<string>)
    requires |flags| == |rows| && rows != []
    ensures ScanRecordsOf(rows, flags)[1..] == ScanRecordsOf(rows[1..], flags[1..])
  {
    var recs := ScanRecordsOf(rows, flags);
    var tail := ScanRecordsOf(rows[1..], flags[1..]);
    forall i | 0 <= i < |tail| ensures recs[1..][i] == tail[i] {
      assert rows[1..][i] == rows[i + 1] && flags[1..][i] == flags[i + 1];
    }
  }

  lemma ScanRowsCons(recs: seq<seq<string>>, rows: seq<ScanRow>)
    requires recs != [] && rows != [] && |recs[0]| > 3 && ScanRowOf(recs[0]) == rows[0]
    requires ScanRows(recs[1..]) == rows[1..]
    ensures ScanRows(recs) == rows
  {
    assert rows == [rows[0]] + rows[1..];
  }

  /** Joining pieces that avoid a set of characters, with a separator that
      avoids it too, gives a string that avoids it. */
  lemma {:induction false} JoinAvoids(parts: seq<string>, sep: string, cs: set<char>)
    requires Avoids(sep, cs)
    requires forall i :: 0 <= i < |parts| ==> Avoids(parts[i], cs)
    ensures Avoids(Join(parts, sep), cs)
  {
    if |parts| > 1 {
      JoinAvoids(parts[1..], sep, cs);
      var rest := Join(parts[1..], sep);
      var s := parts[0] + sep + rest;
      forall i | 0 <= i < |s| ensures s[i] !in cs {
        if i < |parts[0]| { assert s[i] == parts[0][i]; }
        else if i < |parts[0]| + |sep| { assert s[i] == sep[i - |parts[0]|]; }
        else { assert s[i] == rest[i - |parts[0]| - |sep|]; }
      }
    }
  }

  // ---------------------------------------------------------------- list_networks

  /** One row of the `list_networks` table; `flags` is absent on a 3-field row. */
  datatype NetworkRow = NetworkRow(id: string, ssid: string, essid: string, flags: Option<string>)

  function TrimAll(parts: seq<string>): (r: seq<string>)
    ensures |r| == |parts| && forall i :: 0 <= i < |parts| ==> r[i] == Trim(parts[i])
  {
    seq(|parts|, i requires 0 <= i < |parts| => Trim(parts[i]))
  }

  /** The table rows of a list of lines: each line is split on tabs and
      trimmed, and kept when it has at least 3 fields. */
  function NetworkRows(lines: seq<string>): seq<NetworkRow> {
    if lines == [] then []
    else
      var f := TrimAll(Split(lines[0], {'\t'}));
      (if |f| >= 3 then [NetworkRow(f[0], f[1], f[2], if |f| > 3 then Some(f[3]) else None)] else [])
      + NetworkRows(lines[1..])
  }

  /** `listNetworks`'s parse: the header line is dropped, the rest are rows. */
  function ParseNetworkList(reply: string): seq<NetworkRow> {
    NetworkRows(Lines(reply)[1..])
  }

  /** Rows are parsed independently and keep their order. */
  lemma {:induction false} NetworkRowsConcat(a: seq<string>, b: seq<string>)
    ensures NetworkRows(a + b) == NetworkRows(a) + NetworkRows(b)
  {
    if a != [] {
      NetworkRowsConcat(a[1..], b);
      assert (a + b)[1..] == a[1..] + b;
    } else {
      assert a + b == b;
    }
  }

  /** A line with fewer than 3 fields never gives a row; one with 3 or more
      always gives exactly one. */
  lemma NetworkRowOfLine(line: string)
    ensures |NetworkRows([line])| == if |Split(line, {'\t'})| >= 3 then 1 else 0
  {
  }

  /** The row the daemon prints for a network, as the client reads it. */
  function RowOf(n: Network): NetworkRow {
    NetworkRow(NatToString(n.id), n.ssid, "any", Flags(n))
  }

  /** The rows of a network table, one per network. */
  function RowsOf(nets: seq<Network>): (r: seq<NetworkRow>)
    ensures |r| == |nets| && forall i :: 0 <= i < |nets| ==> r[i] == RowOf(nets[i])
  {
    seq(|nets|, i requires 0 <= i < |nets| => RowOf(nets[i]))
  }

  /** A decimal id is a table cell. */
  lemma IdCell(n: nat)
    ensures Cell(NatToString(n))
  {
    var id := NatToString(n);
    forall i | 0 <= i < |id| ensures id[i] !in {'\t', '\n'} { assert IsDigit(id[i]); }
    assert IsDigit(id[0]) && IsDigit(id[|id| - 1]);
  }

  /** The row the client reads for a network whose ssid holds no tab or
      line break: the ssid comes back trimmed, as every field does. */
  function ListedRow(n: Network): NetworkRow {
    NetworkRow(NatToString(n.id), Trim(n.ssid), "any", Flags(n))
  }

  function ListedRows(nets: seq<Network>): (r: seq<NetworkRow>)
    ensures |r| == |nets| && forall i :: 0 <= i < |nets| ==> r[i] == ListedRow(nets[i])
  {
    seq(|nets|, i requires 0 <= i < |nets| => ListedRow(nets[i]))
  }

  /** A row printed by the daemon reads back as its id, its trimmed ssid,
      `any` and flags, whenever the ssid holds no tab or line break. */
  lemma RowLineListed(n: Network)
    requires Avoids(n.ssid, {'\t', '\n'})
    ensures NetworkRows([RowLine(n)]) == [ListedRow(n)]
  {
    var fields := RowFields(n);
    IdCell(n.id);
    forall i | 0 <= i < |fields| ensures Avoids(fields[i], {'\t'}) { }
    SplitJoin(fields, '\t', {'\t'});
    TrimOfTrimmed(NatToString(n.id));
    TrimOfTrimmed("any");
    TrimOfTrimmed("[DISABLED]");
    assert TrimAll(fields) == [NatToString(n.id), Trim(n.ssid)] + fields[2..];
  }

  /** A row printed by the daemon with a clean ssid reads back as its id,
      ssid, `any` and flags. */
  lemma RowLineReads(n: Network)
    requires Cell(n.ssid)
    ensures NetworkRows([RowLine(n)]) == [RowOf(n)]
  {
    RowLineListed(n);
    TrimOfTrimmed(n.ssid);
  }

  /** Whatever the reply, every row read from it has a trimmed ssid. */
  lemma {:induction false} RowsTrimmed(lines: seq<string>)
    ensures forall i :: 0 <= i < |NetworkRows(lines)| ==> Trimmed(NetworkRows(lines)[i].ssid)
  {
    if lines != [] {
      RowsTrimmed(lines[1..]);
      var f := TrimAll(Split(lines[0], {'\t'}));
      var head := if |f| >= 3 then [NetworkRow(f[0], f[1], f[2], if |f| > 3 then Some(f[3]) else None)] else [];
      assert NetworkRows(lines) == head + NetworkRows(lines[1..]);
    }
  }

  lemma {:induction false} ListedRowsOfRowLines(nets: seq<Network>)
    requires forall i :: 0 <= i < |nets| ==> Avoids(nets[i].ssid, {'\t', '\n'})
    ensures NetworkRows(RowLines(nets)) == ListedRows(nets)
  {
    if nets != [] {
      var tail := nets[1..];
      ListedCons(nets);
      NetworkRowsConcat([RowLine(nets[0])], RowLines(tail));
      RowLineListed(nets[0]);
      assert forall i :: 0 <= i < |tail| ==> Avoids(tail[i].ssid, {'\t', '\n'}) by {
        forall i | 0 <= i < |tail| ensures Avoids(tail[i].ssid, {'\t', '\n'}) {
          assert tail[i] == nets[i + 1];
        }
      }
      ListedRowsOfRowLines(tail);
    }
  }

  /** The printed lines and the listed rows of a non-empty table both split
      into the first network's and the rest's. */
  lemma ListedCons(nets: seq<Network>)
    requires nets != []
    ensures RowLines(nets) == [RowLine(nets[0])] + RowLines(nets[1..])
    ensures ListedRows(nets) == [ListedRow(nets[0])] + ListedRows(nets[1..])
  {
  }

  /** The network table the daemon prints parses back to one row per
      configured network, in order, with each ssid trimmed, as long as no
      ssid holds a tab or line break. */
  lemma ListRoundTripListed(nets: seq<Network>)
    requires forall i :: 0 <= i < |nets| ==> Avoids(nets[i].ssid, {'\t', '\n'})
    ensures ParseNetworkList(RenderNetworks(nets)) == ListedRows(nets)
  {
    var lines := [ListHeader] + RowLines(nets);
    assert Lines(RenderNetworks(nets)) == lines by {
      LinesOfRender(nets);
    }
    assert lines[1..] == RowLines(nets);
    ListedRowsOfRowLines(nets);
  }

  lemma RowsOfRowLines(nets: seq<Network>)
    requires forall i :: 0 <= i < |nets| ==> Cell(nets[i].ssid)
    ensures NetworkRows(RowLines(nets)) == RowsOf(nets)
  {
    ListedRowsOfRowLines(nets);
    forall i | 0 <= i < |nets| ensures ListedRow(nets[i]) == RowOf(nets[i]) {
      TrimOfTrimmed(nets[i].ssid);
    }
  }

  /** The network table the daemon prints parses back to one row per
      configured network, in the same order, as long as no ssid holds a tab
      or line break or starts or ends with whitespace. */
  lemma ListRoundTrip(nets: seq<Network>)
    requires forall i :: 0 <= i < |nets| ==> Cell(nets[i].ssid)
    ensures ParseNetworkList(RenderNetworks(nets)) == RowsOf(nets)
  {
    var lines := [ListHeader] + RowLines(nets);
    assert Lines(RenderNetworks(nets)) == lines by {
      LinesOfRender(nets);
    }
    assert lines[1..] == RowLines(nets);
    RowsOfRowLines(nets);
  }

  /** The rendered table splits back into its header and rows. */
  lemma LinesOfRender(nets: seq<Network>)
    requires forall i :: 0 <= i < |nets| ==> Avoids(nets[i].ssid, {'\t', '\n'})
    ensures Lines(RenderNetworks(nets)) == [ListHeader] + RowLines(nets)
  {
    var lines := [ListHeader] + RowLines(nets);
    forall i | 0 <= i < |lines| ensures Avoids(lines[i], {'\n'}) {
      if i > 0 {
        var n := nets[i - 1];
        IdCell(n.id);
        JoinAvoids(RowFields(n), "\t", {'\n'});
      }
    }
    SplitJoin(lines, '\n', {'\n'});
  }

  /** The table starts with its header and ends with `any` or a flag, so the
      trimming `exec` does leaves it as it is. */
  lemma RenderTrimmed(nets: seq<Network>)
    ensures Trim(RenderNetworks(nets)) == RenderNetworks(nets)
  {
    var lines := [ListHeader] + RowLines(nets);
    assert Trimmed(RenderNetworks(nets)) by {
      var last := lines[|lines| - 1];
      assert last != "" && !IsSpace(last[|last| - 1]) by {
        if |nets| > 0 {
          assert last == RowLine(nets[|nets| - 1]);
          RowLineEnd(nets[|nets| - 1]);
        }
      }
      JoinTrimmed(lines, "\n");
    }
    TrimOfTrimmed(RenderNetworks(nets));
  }

  /** A row ends with `any` or the flag. */
  lemma RowLineEnd(n: Network)
    ensures var l := RowLine(n); l != "" && !IsSpace(l[|l| - 1])
  {
    var f := RowFields(n);
    assert f[|f| - 1] == if n.disabled then "[DISABLED]" else "any";
    JoinLast(f, "\t");
  }

  lemma JoinTrimmed(parts: seq<string>, sep: string)
    requires |parts| >= 1 && parts[0] != "" && !IsSpace(parts[0][0])
    requires var l := parts[|parts| - 1]; l != "" && !IsSpace(l[|l| - 1])
    ensures Trimmed(Join(parts, sep))
  {
    JoinFirst(parts, sep);
    JoinLast(parts, sep);
  }

  // ---------------------------------------------------------------- set_network

  /** `setNetworkSettingString`'s value form: the text wrapped in double
      quotes, then in single quotes for the shell. */
  function Quote(value: string): string {
    "'\"" + value + "\"'"
  }

  /** The double-quoted form the daemon expects for a text setting. */
  function DoubleQuoted(value: string): string {
    "\"" + value + "\""
  }

  /** Text the single quotes of `Quote` protect: it holds no single quote. */
  predicate ShellSafe(value: string) {
    '\'' !in value
  }

  /** For a text without a single quote, the shell hands the daemon the
      double-quoted text and the daemon reads back exactly the text. */
  lemma QuoteHeard(id: string, name: string, value: string)
    requires Shell.PlainWord(id) && Shell.PlainWord(name) && ShellSafe(value)
    ensures Heard([id, name, Quote(value)]) == Some([id, name, DoubleQuoted(value)])
    ensures Unquote(DoubleQuoted(value)) == value
  {
    assert Quote(value) == "'" + DoubleQuoted(value) + "'";
    Shell.SingleQuoted(DoubleQuoted(value));
    assert Heard([Quote(value)]) == Some([DoubleQuoted(value)]) by {
      assert Join([Quote(value)], " ") == Quote(value);
    }
    HeardCons(name, [Quote(value)]);
    HeardCons(id, [name, Quote(value)]);
    assert [id] + [name, Quote(value)] == [id, name, Quote(value)];
    assert [name] + [Quote(value)] == [name, Quote(value)];
    assert [name] + [DoubleQuoted(value)] == [name, DoubleQuoted(value)];
    assert [id] + [name, DoubleQuoted(value)] == [id, name, DoubleQuoted(value)];
    var d := DoubleQuoted(value);
    assert d[1..|d| - 1] == value;
  }

  /** The fault: a text with one single quote (`Bob's`) closes the shell's
      quotes early and leaves the closing double quote open, so the shell
      runs nothing. */
  lemma QuoteUnterminated(x: string, y: string)
    requires ShellSafe(x) && Avoids(y, {'\'', '"', '\\'})
    ensures Shell.Words(Quote(x + "'" + y)).None?
  {
    var a := "'";
    var b := "\"" + x;
    var e := "\"";
    assert Quote(x + "'" + y) == a + b + a + y + e + a;
    var r1 := Shell.Reader([], "", true, Shell.Single);
    Shell.ReadOne(Shell.Start, '\'');
    Shell.ReadSingle(r1, b);
    var r2 := r1.(word := "" + b);
    Shell.ReadConcat(Shell.Start, a, b);
    var r3 := r2.(mode := Shell.Plain);
    Shell.ReadConcat(Shell.Start, a + b, a);
    Shell.ReadOne(r2, '\'');
    Shell.ReadConcat(Shell.Start, a + b + a, y);
    Shell.ReadStaysPlain(r3, y);
    var r4 := Shell.Read(r3, y);
    Shell.ReadConcat(Shell.Start, a + b + a + y, e);
    Shell.ReadOne(r4, '"');
    var r5 := Shell.Step(r4, '"');
    Shell.ReadConcat(Shell.Start, a + b + a + y + e, a);
    Shell.ReadOne(r5, '\'');
  }

  /** The fault, silently: a text with a quoted stretch of plain letters
      (`a'b'c`) loses its single quotes, so the daemon stores another name. */
  lemma QuoteDrops(x: string, y: string, z: string)
    requires ShellSafe(x) && Avoids(y, Shell.Special) && ShellSafe(z)
    ensures Shell.Words(Quote(x + "'" + y + "'" + z)) == Some([DoubleQuoted(x + y + z)])
  {
    var a := "'";
    var b := "\"" + x;
    var c := z + "\"";
    assert Quote(x + "'" + y + "'" + z) == a + b + a + y + a + c + a;
    assert '\'' !in b && '\'' !in c;
    Shell.QuotedPlainQuoted(b, y, c);
    assert b + y + c == DoubleQuoted(x + y + z);
  }

  /** The quoting the shell reads back for every text: each single quote
      written `'\''` inside the single quotes. */
  function QuoteEscaped(value: string): string {
    "'" + Shell.EscapeQuotes(DoubleQuoted(value)) + "'"
  }

  /** With that quoting the daemon receives every text exactly, single
      quotes included. */
  lemma QuoteEscapedHeard(id: string, name: string, value: string)
    requires Shell.PlainWord(id) && Shell.PlainWord(name)
    ensures Heard([id, name, QuoteEscaped(value)]) == Some([id, name, DoubleQuoted(value)])
    ensures Unquote(DoubleQuoted(value)) == value
  {
    Shell.QuotedAny(DoubleQuoted(value));
    assert Heard([QuoteEscaped(value)]) == Some([DoubleQuoted(value)]) by {
      assert Join([QuoteEscaped(value)], " ") == QuoteEscaped(value);
    }
    HeardCons(name, [QuoteEscaped(value)]);
    HeardCons(id, [name, QuoteEscaped(value)]);
    assert [id] + [name, QuoteEscaped(value)] == [id, name, QuoteEscaped(value)];
    assert [name] + [QuoteEscaped(value)] == [name, QuoteEscaped(value)];
    assert [name] + [DoubleQuoted(value)] == [name, DoubleQuoted(value)];
    assert [id] + [name, DoubleQuoted(value)] == [id, name, DoubleQuoted(value)];
    var d := DoubleQuoted(value);
    assert d[1..|d| - 1] == value;
  }

  // ---------------------------------------------------------------- the client

  /** The `WPA` class: one control interface, the lines sent so far, and the
      daemon that answers them. */
  class Client {
    const iface: string
    var sent: seq<string>
    var daemon: Daemon

    /** `new WPA(iface)`: an empty interface name falls back to `wlan0`. */
    constructor (iface: string, daemon: Daemon)
      ensures this.iface == (if iface == "" then "wlan0" else iface)
      ensures this.daemon == daemon && sent == []
    {
      this.iface := if iface == "" then "wlan0" else iface;
      this.daemon := daemon;
      sent := [];
    }

    /** `exec(cmd, args)`: sends one line, and returns the trimmed reply or
        the error naming the line. */
    method Exec(cmd: string, args: Args) returns (r: Result<string, Failure>)
      modifies this
      ensures sent == old(sent) + [CommandLine(iface, cmd, ArgList(args))]
      ensures daemon == Respond(old(daemon), cmd, ArgList(args)).0
      ensures r == Reply(CommandLine(iface, cmd, ArgList(args)), Respond(old(daemon), cmd, ArgList(args)).1)
    {
      var list := ArgList(args);
      var line := CommandLine(iface, cmd, list);
      var next := Respond(daemon, cmd, list);
      sent := sent + [line];
      daemon := next.0;
      r := Reply(line, next.1);
    }

    /** `status()`: one `status` command, its reply parsed into a record. */
    method Status() returns (r: Result<StatusRecord, Failure>)
      modifies this
      ensures sent == old(sent) + [CommandLine(iface, "status", [])]
      ensures daemon == old(daemon)
      ensures var out := Reply(CommandLine(iface, "status", []), Respond(old(daemon), "status", []).1);
              r == if out.Err? then Err(out.error) else Ok(StatusOf(Lines(out.value)))
    {
      var out := Exec("status", NoArgs);
      if out.Err? {
        return Err(out.error);
      }
      var status := ParseStatus(out.value);
      r := Ok(status);
    }

    /** `scan()`: `scan`, and only if that answers exactly `OK`, `scan_result`. */
    method Scan() returns (r: Result<seq<ScanRow>, Failure>)
      modifies this
      ensures daemon == old(daemon)
      ensures var ack := Reply(CommandLine(iface, "scan", []), Respond(old(daemon), "scan", []).1);
              if ack.Err? then sent == old(sent) + [CommandLine(iface, "scan", [])] && r == Err(ack.error)
              else if ack.value != "OK" then sent == old(sent) + [CommandLine(iface, "scan", [])] && r == Err(ScanRefused(ack.value))
              else
                var res := Reply(CommandLine(iface, "scan_result", []), Respond(old(daemon), "scan_result", []).1);
                sent == old(sent) + [CommandLine(iface, "scan", []), CommandLine(iface, "scan_result", [])]
                && r == if res.Err? then Err(res.error) else ScanRowsAsWritten(Records(res.value))
    {
      var ack := Exec("scan", NoArgs);
      if ack.Err? {
        return Err(ack.error);
      }
      if ack.value != "OK" {
        return Err(ScanRefused(ack.value));
      }
      var res := Exec("scan_result", NoArgs);
      if res.Err? {
        return Err(res.error);
      }
      r := ScanRowsAsWritten(Records(res.value));
    }

    /** `addNetwork()`: `add_network`, its reply read with `parseInt`. */
    method AddNetwork() returns (r: Result<Num, Failure>)
      modifies this
      ensures sent == old(sent) + [CommandLine(iface, "add_network", [])]
      ensures daemon == Respond(old(daemon), "add_network", []).0
      ensures var out := Reply(CommandLine(iface, "add_network", []), Respond(old(daemon), "add_network", []).1);
              r == if out.Err? then Err(out.error) else Ok(ParseInt(out.value))
    {
      var out := Exec("add_network", NoArgs);
      if out.Err? {
        return Err(out.error);
      }
      r := Ok(ParseInt(out.value));
    }

    /** `listNetworks()`: `list_networks`, its table parsed. */
    method ListNetworks() returns (r: Result<seq<NetworkRow>, Failure>)
      modifies this
      ensures sent == old(sent) + [CommandLine(iface, "list_networks", [])]
      ensures daemon == old(daemon)
      ensures var out := Reply(CommandLine(iface, "list_networks", []), Respond(old(daemon), "list_networks", []).1);
              r == if out.Err? then Err(out.error) else Ok(ParseNetworkList(out.value))
    {
      var out := Exec("list_networks", NoArgs);
      if out.Err? {
        return Err(out.error);
      }
      r := Ok(ParseNetworkList(out.value));
    }

    /** `setNetworkSetting(id, name, value)`: the value is sent as it is. */
    method SetNetworkSetting(id: string, name: string, value: string) returns (r: Result<string, Failure>)
      modifies this
      ensures sent == old(sent) + [CommandLine(iface, "set_network", [id, name, value])]
      ensures daemon == Respond(old(daemon), "set_network", [id, name, value]).0
      ensures r == Reply(CommandLine(iface, "set_network", [id, name, value]), Respond(old(daemon), "set_network", [id, name, value]).1)
    {
      r := Exec("set_network", Many([id, name, value]));
    }

    /** `setNetworkSettingString(id, name, value)`: the same command with the
        value in its quoted form. */
    method SetNetworkSettingString(id: string, name: string, value: string) returns (r: Result<string, Failure>)
      modifies this
      ensures sent == old(sent) + [CommandLine(iface, "set_network", [id, name, Quote(value)])]
      ensures daemon == Respond(old(daemon), "set_network", [id, name, Quote(value)]).0
      ensures r == Reply(CommandLine(iface, "set_network", [id, name, Quote(value)]), Respond(old(daemon), "set_network", [id, name, Quote(value)]).1)
    {
      r := SetNetworkSetting(id, name, Quote(value));
    }

    method GetNetworkSetting(id: string, name: string) returns (r: Result<string, Failure>)
      modifies this
      ensures sent == old(sent) + [CommandLine(iface, "get_network", [id, name])]
      ensures daemon == old(daemon)
      ensures r == Reply(CommandLine(iface, "get_network", [id, name]), Respond(old(daemon), "get_network", [id, name]).1)
    {
      r := Exec("get_network", Many([id, name]));
    }

    method EnableNetwork(id: string) returns (r: Result<string, Failure>)
      modifies this
      ensures sent == old(sent) + [CommandLine(iface, "enable_network", [id])]
      ensures daemon == Respond(old(daemon), "enable_network", [id]).0
      ensures r == Reply(CommandLine(iface, "enable_network", [id]), Respond(old(daemon), "enable_network", [id]).1)
    {
      r := Exec("enable_network", Many([id]));
    }

    method DisableNetwork(id: string) returns (r: Result<string, Failure>)
      modifies this
      ensures sent == old(sent) + [CommandLine(iface, "disable_network", [id])]
      ensures daemon == Respond(old(daemon), "disable_network", [id]).0
      ensures r == Reply(CommandLine(iface, "disable_network", [id]), Respond(old(daemon), "disable_network", [id]).1)
    {
      r := Exec("disable_network", Many([id]));
    }

    method SelectNetwork(id: string) returns (r: Result<string, Failure>)
      modifies this
      ensures sent == old(sent) + [CommandLine(iface, "select_network", [id])]
      ensures daemon == Respond(old(daemon), "select_network", [id]).0
      ensures r == Reply(CommandLine(iface, "select_network", [id]), Respond(old(daemon), "select_network", [id]).1)
    {
      r := Exec("select_network", Many([id]));
    }

    method RemoveNetwork(id: string) returns (r: Result<string, Failure>)
      modifies this
      ensures sent == old(sent) + [CommandLine(iface, "remove_network", [id])]
      ensures daemon == Respond(old(daemon), "remove_network", [id]).0
      ensures r == Reply(CommandLine(iface, "remove_network", [id]), Respond(old(daemon), "remove_network", [id]).1)
    {
      r := Exec("remove_network", Many([id]));
    }

    method ReloadConfiguration() returns (r: Result<string, Failure>)
      modifies this
      ensures sent == old(sent) + [CommandLine(iface, "reconfigure", [])]
      ensures daemon == Respond(old(daemon), "reconfigure", []).0
      ensures r == Reply(CommandLine(iface, "reconfigure", []), Respond(old(daemon), "reconfigure", []).1)
    {
      r := Exec("reconfigure", NoArgs);
    }

    method SaveConfiguration() returns (r: Result<string, Failure>)
      modifies this
      ensures sent == old(sent) + [CommandLine(iface, "save_config", [])]
      ensures daemon == Respond(old(daemon), "save_config", []).0
      ensures r == Reply(CommandLine(iface, "save_config", []), Respond(old(daemon), "save_config", []).1)
    {
      r := Exec("save_config", NoArgs);
    }

    method Disconnect() returns (r: Result<string, Failure>)
      modifies this
      ensures sent == old(sent) + [CommandLine(iface, "disconnect", [])]
      ensures daemon == old(daemon)
      ensures r == Reply(CommandLine(iface, "disconnect", []), Respond(old(daemon), "disconnect", []).1)
    {
      r := Exec("disconnect", NoArgs);
    }
  }
}
