/** `lib/iw.js`: the parser of `iw dev` output into device records, and the
    lookup of the interface that belongs to a phy. */
module Iw {
  import opened Common
  import opened Text

  /** One entry of `iw dev`: the phy index of its block and the fields its
      lines carry (`txpower` is not modelled). */
  datatype Device = Device(
    phy: Num,
    iface: Option<string>,
    ifindex: Option<Num>,
    wdev: Option<string>,
    addr: Option<string>,
    ifType: Option<string>,
    channel: Option<Num>)

  // ---------------------------------------------------------------- patterns

  /** The character classes the patterns use. */
  datatype Class = LineChar | Digit | Hex | MacChar | DecimalChar

  predicate InClass(c: char, k: Class) {
    match k
    case LineChar => c !in LineTerminators
    case Digit => IsDigit(c)
    case Hex => IsDigit(c) || 'a' <= c <= 'f' || 'A' <= c <= 'F'
    case MacChar => IsDigit(c) || 'a' <= c <= 'f' || 'A' <= c <= 'F' || c == ':'
    case DecimalChar => IsDigit(c) || c == '.'
  }

  /** The length of the longest prefix of `t` in class `k`. */
  function Span(t: string, k: Class): (n: nat)
    ensures n <= |t|
  {
    if t == [] || !InClass(t[0], k) then 0 else 1 + Span(t[1..], k)
  }

  /** `Span` is the longest run: everything before it is in the class, the
      next character is not. */
  lemma {:induction false} SpanRun(t: string, k: Class)
    ensures forall i :: 0 <= i < Span(t, k) ==> InClass(t[i], k)
    ensures Span(t, k) < |t| ==> !InClass(t[Span(t, k)], k)
  {
    if t != [] && InClass(t[0], k) {
      SpanRun(t[1..], k);
    }
  }

  /** The group of a pattern, read from the text right after its literal part. */
  datatype Capture =
    | RestOfLine       // `(.+)`
    | Digits           // `(\d*)`
    | DigitLine        // `(\d*)\n`
    | HexLiteral       // `(0[xX][0-9a-fA-F]+)`
    | MacAddress       // `([A-Fa-f0-9:]{17})`
    | Decimal          // `([.\d]*)`
    | BeforeInterface  // `(.*) interface`
    | PhyNumber        // `[#]?(\d+)`

  /** The last position at which `sub` occurs inside `line`. */
  function LastAt(line: string, sub: string): (r: Option<nat>)
    ensures r.Some? ==> r.value + |sub| <= |line|
    decreases |line|
  {
    if |line| < |sub| then None
    else if line[|line| - |sub|..] == sub then Some(|line| - |sub|)
    else LastAt(line[..|line| - 1], sub)
  }

  /** `sub` occurs at position `j` of `line`. */
  predicate OccursAt(line: string, sub: string, j: nat) {
    j + |sub| <= |line| && line[j..j + |sub|] == sub
  }

  /** `LastAt` finds an occurrence, and no later one exists. */
  lemma {:induction false} LastAtLast(line: string, sub: string)
    ensures LastAt(line, sub).Some? ==> OccursAt(line, sub, LastAt(line, sub).value)
    ensures forall j: nat :: OccursAt(line, sub, j) ==> LastAt(line, sub).Some? && j <= LastAt(line, sub).value
    decreases |line|
  {
    if |line| >= |sub| && line[|line| - |sub|..] != sub {
      var shorter := line[..|line| - 1];
      LastAtLast(shorter, sub);
      var r := LastAt(shorter, sub);
      if r.Some? {
        assert shorter[r.value..r.value + |sub|] == line[r.value..r.value + |sub|];
      }
      forall j: nat | OccursAt(line, sub, j)
        ensures OccursAt(shorter, sub, j)
      {
        assert j != |line| - |sub|;
        assert shorter[j..j + |sub|] == line[j..j + |sub|];
      }
    }
  }

  /** What the group captures when the pattern's literal part ends just
      before `t`, or `None` when the rest of the pattern fails there.
      Quantifiers are greedy, so each group is the longest text that still
      lets the pattern match. */
  function Take(t: string, k: Capture): (r: Option<string>)
  {
    match k
    case RestOfLine =>
      var n := Span(t, LineChar);
      if n >= 1 then Some(t[..n]) else None
    case Digits => Some(t[..Span(t, Digit)])
    case DigitLine =>
      var n := Span(t, Digit);
      if n < |t| && t[n] == '\n' then Some(t[..n]) else None
    case HexLiteral =>
      if |t| >= 2 && t[0] == '0' && (t[1] == 'x' || t[1] == 'X') && Span(t[2..], Hex) >= 1
      then Some(t[..2 + Span(t[2..], Hex)])
      else None
    case MacAddress => if Span(t, MacChar) >= 17 then Some(t[..17]) else None
    case Decimal => Some(t[..Span(t, DecimalChar)])
    case BeforeInterface =>
      var j := LastAt(t[..Span(t, LineChar)], " interface");
      if j.Some? then Some(t[..j.value]) else None
    case PhyNumber =>
      if |t| >= 1 && t[0] == '#' && Span(t[1..], Digit) >= 1 then Some(t[1..1 + Span(t[1..], Digit)])
      else if Span(t, Digit) >= 1 then Some(t[..Span(t, Digit)])
      else None
  }

  /** The pattern `lit` followed by group `k` matches at position `i` of `s`. */
  predicate MatchesAt(s: string, lit: string, k: Capture, i: nat) {
    i + |lit| <= |s| && s[i..i + |lit|] == lit && Take(s[i + |lit|..], k).Some?
  }

  /** The group of the leftmost match at or after position `i`. */
  function MatchFrom(s: string, lit: string, k: Capture, i: nat): Option<string>
    requires i <= |s|
    decreases |s| - i
  {
    if |s| - i < |lit| then None
    else if MatchesAt(s, lit, k, i) then Take(s[i + |lit|..], k)
    else if i == |s| then None
    else MatchFrom(s, lit, k, i + 1)
  }

  /** `s.match(/<lit>(<k>)/)[1]`, with `None` for a failed match. */
  function Match(s: string, lit: string, k: Capture): Option<string> {
    MatchFrom(s, lit, k, 0)
  }

  lemma {:induction false} MatchFromNone(s: string, lit: string, k: Capture, i: nat)
    requires i <= |s|
    ensures MatchFrom(s, lit, k, i).None? <==> forall j :: i <= j <= |s| ==> !MatchesAt(s, lit, k, j)
    decreases |s| - i
  {
    if |s| - i >= |lit| && !MatchesAt(s, lit, k, i) && i < |s| {
      MatchFromNone(s, lit, k, i + 1);
    }
  }

  lemma {:induction false} MatchFromAt(s: string, lit: string, k: Capture, i: nat) returns (j: nat)
    requires i <= |s| && MatchFrom(s, lit, k, i).Some?
    ensures i <= j <= |s| && MatchesAt(s, lit, k, j) && MatchFrom(s, lit, k, i) == Take(s[j + |lit|..], k)
    ensures forall m :: i <= m < j ==> !MatchesAt(s, lit, k, m)
    decreases |s| - i
  {
    if MatchesAt(s, lit, k, i) {
      j := i;
    } else {
      j := MatchFromAt(s, lit, k, i + 1);
    }
  }

  /** Where a successful `Match` matched. */
  lemma MatchPosition(s: string, lit: string, k: Capture) returns (j: nat)
    requires Match(s, lit, k).Some?
    ensures j <= |s| && MatchesAt(s, lit, k, j) && Match(s, lit, k) == Take(s[j + |lit|..], k)
    ensures StartsWith(s[j..], lit)
  {
    j := MatchFromAt(s, lit, k, 0);
    assert s[j..][..|lit|] == s[j..j + |lit|];
  }

  /** `Match` is the regular-expression search: it fails exactly when the
      pattern matches nowhere, and otherwise yields the group of the leftmost
      position where it matches. */
  lemma Leftmost(s: string, lit: string, k: Capture)
    ensures Match(s, lit, k).None? <==> forall j :: 0 <= j <= |s| ==> !MatchesAt(s, lit, k, j)
    ensures Match(s, lit, k).Some? ==>
      exists j :: 0 <= j <= |s| && MatchesAt(s, lit, k, j) && Match(s, lit, k) == Take(s[j + |lit|..], k)
        && forall m :: 0 <= m < j ==> !MatchesAt(s, lit, k, m)
  {
    MatchFromNone(s, lit, k, 0);
    if Match(s, lit, k).Some? {
      var j := MatchFromAt(s, lit, k, 0);
    }
  }

  /** The groups have the shapes their patterns describe. */
  lemma TakeShape(t: string, k: Capture)
    requires Take(t, k).Some?
    ensures var c := Take(t, k).value;
      && (k != PhyNumber ==> StartsWith(t, c))
      && (k == PhyNumber ==> StartsWith(t, c) || (t[0] == '#' && StartsWith(t[1..], c)))
      && (k == MacAddress ==> |c| == 17 && forall i :: 0 <= i < 17 ==> InClass(c[i], MacChar))
      && (k == HexLiteral ==>
            (|c| >= 3 && c[0] == '0' && (c[1] == 'x' || c[1] == 'X')
             && forall i :: 2 <= i < |c| ==> InClass(c[i], Hex)))
      && (k == RestOfLine ==>
            (c != [] && (forall i :: 0 <= i < |c| ==> c[i] !in LineTerminators)
             && (|c| < |t| ==> t[|c|] in LineTerminators)))
      && ((k == Digits || k == DigitLine || k == PhyNumber) ==> AllDigits(c))
      && (k == DigitLine ==> |c| < |t| && t[|c|] == '\n')
      && (k == PhyNumber ==> c != [])
  {
    match k
    case MacAddress => SpanRun(t, MacChar);
    case HexLiteral => SpanRun(t[2..], Hex);
    case RestOfLine => SpanRun(t, LineChar);
    case Digits => SpanRun(t, Digit);
    case DigitLine => SpanRun(t, Digit);
    case PhyNumber =>
      if |t| >= 1 && t[0] == '#' && Span(t[1..], Digit) >= 1 {
        SpanRun(t[1..], Digit);
      } else {
        SpanRun(t, Digit);
      }
    case Decimal =>
    case BeforeInterface =>
  }

  // ---------------------------------------------------------------- parse_dev

  /** `parseInt` of a group, when the pattern matched. */
  function Parsed(m: Option<string>): Option<Num> {
    if m.None? then None else Some(ParseInt(m.value))
  }

  /** `parse_dev(phy)(s)`: the fields one interface block of `iw dev` gives. */
  function ParseDev(phy: Num, s: string): Device {
    var named := Match(s, "Interface ", RestOfLine);
    var unnamed := Match(s, "Unnamed", BeforeInterface);
    Device(
      phy,
      if named.Some? then named else if unnamed.Some? then Some("Unnamed" + unnamed.value) else None,
      Parsed(Match(s, "ifindex ", Digits)),
      Match(s, "wdev ", HexLiteral),
      Match(s, "addr ", MacAddress),
      Match(s, "type ", RestOfLine),
      Parsed(Match(s, "channel ", Decimal)))
  }

  /** Which pattern holds, and where the leftmost match is, decides every
      field of a block: a field is present exactly when its pattern occurs. */
  lemma ParseDevFields(phy: Num, s: string)
    ensures var d := ParseDev(phy, s);
      && d.phy == phy
      && (d.ifindex.Some? <==> Contains(s, "ifindex "))
      && (d.channel.Some? <==> Contains(s, "channel "))
      && (d.addr.Some? ==> |d.addr.value| == 17 && Contains(s, "addr " + d.addr.value))
      && (d.wdev.Some? ==> Contains(s, "wdev " + d.wdev.value))
      && (d.ifType.Some? ==> d.ifType.value != [] && Contains(s, "type " + d.ifType.value))
  {
    AlwaysMatches(s, "ifindex ", Digits);
    AlwaysMatches(s, "channel ", Decimal);
    var a := Match(s, "addr ", MacAddress);
    if a.Some? {
      MatchOccurs(s, "addr ", MacAddress);
    }
    if Match(s, "wdev ", HexLiteral).Some? {
      MatchOccurs(s, "wdev ", HexLiteral);
    }
    if Match(s, "type ", RestOfLine).Some? {
      MatchOccurs(s, "type ", RestOfLine);
    }
  }

  /** A pattern whose group can be empty matches wherever its literal occurs. */
  lemma AlwaysMatches(s: string, lit: string, k: Capture)
    requires k == Digits || k == Decimal
    ensures Match(s, lit, k).Some? <==> Contains(s, lit)
  {
    if Match(s, lit, k).Some? {
      var j := MatchPosition(s, lit, k);
      ContainsAt(s, lit, j);
    }
    if Contains(s, lit) {
      ContainsOccurs(s, lit);
      MatchFromNone(s, lit, k, 0);
      var i :| 0 <= i <= |s| && StartsWith(s[i..], lit);
      assert s[i..i + |lit|] == s[i..][..|lit|];
      assert MatchesAt(s, lit, k, i);
    }
  }

  /** The text a successful match yields stands in `s` right after the literal. */
  lemma MatchOccurs(s: string, lit: string, k: Capture)
    requires Match(s, lit, k).Some? && k != PhyNumber
    ensures Contains(s, lit + Match(s, lit, k).value)
    ensures k == RestOfLine ==> Match(s, lit, k).value != []
    ensures k == MacAddress ==> |Match(s, lit, k).value| == 17
  {
    var c := Match(s, lit, k).value;
    var j := MatchPosition(s, lit, k);
    TakeShape(s[j + |lit|..], k);
    assert StartsWith(s[j..], lit + c) by {
      assert s[j..][..|lit| + |c|] == s[j..j + |lit|] + s[j + |lit|..][..|c|];
    }
    ContainsAt(s, lit + c, j);
  }

  // ---------------------------------------------------------------- split

  /** The two lookaheads the output is split before: `(?=phy#\d*)` and
      `(?=Interface .+|Unnamed.*)`. */
  datatype Cut = BeforePhy | BeforeDev

  /** The lookahead of `c` matches at position `q` of `s`. */
  predicate CutsAt(s: string, q: nat, c: Cut)
    requires q <= |s|
  {
    match c
    case BeforePhy => StartsWith(s[q..], "phy#")
    case BeforeDev =>
      (StartsWith(s[q..], "Interface ") && q + 10 < |s| && s[q + 10] !in LineTerminators)
      || StartsWith(s[q..], "Unnamed")
  }

  /** The pieces of `s[p..]`, where `p` is the last cut made and the
      positions before `q` have been looked at. */
  function PiecesFrom(s: string, c: Cut, p: nat, q: nat): (r: seq<string>)
    requires p < q && p <= |s|
    ensures |r| >= 1
    decreases |s| - q
  {
    if q >= |s| then [s[p..]]
    else if CutsAt(s, q, c) then [s[p..q]] + PiecesFrom(s, c, q, q + 1)
    else PiecesFrom(s, c, p, q + 1)
  }

  /** `s.split(/(?=...)/)`: `s` is cut before every position after the first
      where the lookahead matches (an empty match at 0 does not cut, and the
      empty string gives one empty piece). */
  function Pieces(s: string, c: Cut): seq<string> {
    PiecesFrom(s, c, 0, 1)
  }

  lemma {:induction false} PiecesFromJoin(s: string, c: Cut, p: nat, q: nat)
    requires p < q && p <= |s|
    ensures Join(PiecesFrom(s, c, p, q), "") == s[p..]
    decreases |s| - q
  {
    if q >= |s| {
    } else if CutsAt(s, q, c) {
      PiecesFromJoin(s, c, q, q + 1);
      var rest := PiecesFrom(s, c, q, q + 1);
      assert ([s[p..q]] + rest)[1..] == rest;
      assert s[p..q] + s[q..] == s[p..];
    } else {
      PiecesFromJoin(s, c, p, q + 1);
    }
  }

  /** Splitting loses nothing: the pieces put back together are the text. */
  lemma PiecesJoin(s: string, c: Cut)
    ensures Join(Pieces(s, c), "") == s
  {
    PiecesFromJoin(s, c, 0, 1);
  }

  /** `phy#` occurs at position `r` of `t`. */
  predicate HeaderAt(t: string, r: nat) {
    r + 4 <= |t| && t[r..r + 4] == "phy#"
  }

  lemma {:induction false} PhyPiecesFrom(s: string, p: nat, q: nat)
    requires p < q && p <= |s|
    requires p > 0 ==> HeaderAt(s, p)
    requires forall r :: p < r < q && r < |s| ==> !HeaderAt(s, r)
    ensures p > 0 ==> StartsWith(PiecesFrom(s, BeforePhy, p, q)[0], "phy#")
    ensures PhyBlocks(PiecesFrom(s, BeforePhy, p, q))
    decreases |s| - q
  {
    if q >= |s| {
      NoInnerHeader(s, p, |s|);
      assert s[p..] == s[p..|s|];
      if p > 0 {
        FirstPieceHeader(s, p, |s|);
      }
    } else if CutsAt(s, q, BeforePhy) {
      assert HeaderAt(s, q) by {
        assert s[q..][..4] == s[q..q + 4];
      }
      NoInnerHeader(s, p, q);
      if p > 0 {
        HeadersApart(s, p, q);
        FirstPieceHeader(s, p, q);
      }
      PhyPiecesFrom(s, q, q + 1);
      PhyBlocksCons(s[p..q], PiecesFrom(s, BeforePhy, q, q + 1));
    } else {
      assert !HeaderAt(s, q);
      PhyPiecesFrom(s, p, q + 1);
    }
  }

  /** Two occurrences of `phy#` are at least four characters apart. */
  lemma HeadersApart(s: string, p: nat, q: nat)
    requires p < q && HeaderAt(s, p) && HeaderAt(s, q)
    ensures q >= p + 4
  {
    forall i | p < i < p + 4
      ensures s[i] != 'p'
    {
      assert s[i] == s[p..p + 4][i - p];
    }
    assert s[q] == s[q..q + 4][0];
  }

  lemma FirstPieceHeader(s: string, p: nat, q: nat)
    requires p + 4 <= q <= |s| && HeaderAt(s, p)
    ensures StartsWith(s[p..q], "phy#")
  {
    assert s[p..q][..4] == s[p..p + 4];
  }

  /** A piece that ends before the next header has none after its start. */
  lemma NoInnerHeader(s: string, p: nat, q: nat)
    requires p <= q <= |s|
    requires forall r :: p < r < q && r < |s| ==> !HeaderAt(s, r)
    ensures forall r :: 1 <= r < q - p ==> !HeaderAt(s[p..q], r)
  {
    forall r | 1 <= r < q - p
      ensures !HeaderAt(s[p..q], r)
    {
      if HeaderAt(s[p..q], r) {
        HeaderInside(s, p, q, r);
      }
    }
  }

  lemma PhyBlocksCons(x: string, rest: seq<string>)
    requires forall r :: 1 <= r < |x| ==> !HeaderAt(x, r)
    requires rest != [] && StartsWith(rest[0], "phy#") && PhyBlocks(rest)
    ensures PhyBlocks([x] + rest)
  {
    var ps := [x] + rest;
    assert forall k :: 1 <= k < |ps| ==> ps[k] == rest[k - 1];
  }

  lemma HeaderInside(s: string, p: nat, q: nat, r: nat)
    requires p <= q <= |s| && HeaderAt(s[p..q], r)
    ensures HeaderAt(s, p + r)
  {
    forall i | r <= i < r + 4
      ensures s[p..q][i] == s[p + i]
    {
    }
    assert s[p..q][r..r + 4] == s[p + r..p + r + 4];
  }

  /** Every piece after the first starts with `phy#`, and no piece has
      `phy#` anywhere else. */
  predicate PhyBlocks(ps: seq<string>) {
    && (forall k :: 1 <= k < |ps| ==> StartsWith(ps[k], "phy#"))
    && (forall k, r :: 0 <= k < |ps| && 1 <= r < |ps[k]| ==> !HeaderAt(ps[k], r))
  }

  /** Each piece of the output holds one phy block. */
  lemma PhyPieces(s: string)
    ensures PhyBlocks(Pieces(s, BeforePhy))
  {
    assert Pieces(s, BeforePhy) == PiecesFrom(s, BeforePhy, 0, 1);
    PhyPiecesFrom(s, 0, 1);
  }

  /** Text where no lookahead matches stays in one piece. */
  lemma {:induction false} UncutFrom(s: string, c: Cut, p: nat, q: nat)
    requires p < q && p <= |s|
    requires forall r :: q <= r < |s| ==> !CutsAt(s, r, c)
    ensures PiecesFrom(s, c, p, q) == [s[p..]]
    decreases |s| - q
  {
    if q < |s| {
      UncutFrom(s, c, p, q + 1);
    }
  }

  // ---------------------------------------------------------------- parse_phy

  /** `.map(parse_dev(idx))` over the blocks of one phy. */
  function ParseDevs(phy: Num, blocks: seq<string>): seq<Device> {
    if blocks == [] then [] else [ParseDev(phy, blocks[0])] + ParseDevs(phy, blocks[1..])
  }

  /** `parse_phy(s)`: no devices without a `phy#<digits>\n` header;
      otherwise the text after the header, trimmed and cut before each
      interface, gives one device per block, all with the header's index. */
  function ParsePhy(s: string): seq<Device> {
    var header := Match(s, "phy#", DigitLine);
    if header.None? then []
    else
      var len := |"phy#"| + |header.value| + 1;  // match[0].length
      var body := if len <= |s| then s[len..] else "";
      ParseDevs(ParseInt(header.value), Pieces(Trim(body), BeforeDev))
  }

  lemma {:induction false} ParseDevsPhy(phy: Num, blocks: seq<string>)
    ensures |ParseDevs(phy, blocks)| == |blocks|
    ensures forall i :: 0 <= i < |blocks| ==> ParseDevs(phy, blocks)[i] == ParseDev(phy, blocks[i])
  {
    if blocks != [] {
      ParseDevsPhy(phy, blocks[1..]);
    }
  }

  /** A phy block gives devices exactly when it has a header, at least one
      then (a header with nothing after it still gives a device that carries
      only the index), and every device carries the header's index. */
  lemma ParsePhyIndex(s: string)
    ensures Match(s, "phy#", DigitLine).None? <==> ParsePhy(s) == []
    ensures forall d :: d in ParsePhy(s) ==>
      Match(s, "phy#", DigitLine).Some? && d.phy == ParseInt(Match(s, "phy#", DigitLine).value)
  {
    var header := Match(s, "phy#", DigitLine);
    if header.Some? {
      var len := |"phy#"| + |header.value| + 1;
      var body := if len <= |s| then s[len..] else "";
      var blocks := Pieces(Trim(body), BeforeDev);
      ParseDevsPhy(ParseInt(header.value), blocks);
    }
  }

  // ---------------------------------------------------------------- parse_dev_list

  /** `.map(parse_phy).reduce(concat)` over the phy blocks. */
  function Devices(blocks: seq<string>): seq<Device> {
    if blocks == [] then [] else ParsePhy(blocks[0]) + Devices(blocks[1..])
  }

  /** The comparator `(a, b) => a.phy - b.phy` is positive; a `NaN`
      difference compares as equal. */
  predicate After(a: Device, b: Device) {
    a.phy.Int? && b.phy.Int? && a.phy.i > b.phy.i
  }

  /** Places `d` before the first device it does not come after. */
  function Insert(d: Device, sorted: seq<Device>): seq<Device> {
    if sorted == [] || !After(d, sorted[0]) then [d] + sorted
    else [sorted[0]] + Insert(d, sorted[1..])
  }

  /** `.sort((a, b) => a.phy - b.phy)`, which is stable. */
  function SortByPhy(devs: seq<Device>): seq<Device> {
    if devs == [] then [] else Insert(devs[0], SortByPhy(devs[1..]))
  }

  /** `parse_dev_list({stdout})`. */
  function ParseDevList(stdout: string): seq<Device> {
    SortByPhy(Devices(Pieces(stdout, BeforePhy)))
  }

  /** No device comes after a later one. */
  predicate Ordered(devs: seq<Device>) {
    forall i, j :: 0 <= i < j < |devs| ==> !After(devs[i], devs[j])
  }

  predicate AllIndexed(devs: seq<Device>) {
    forall i :: 0 <= i < |devs| ==> devs[i].phy.Int?
  }

  /** The devices with phy `n`, in order. */
  function WithPhy(devs: seq<Device>, n: Num): seq<Device> {
    if devs == [] then []
    else (if devs[0].phy == n then [devs[0]] else []) + WithPhy(devs[1..], n)
  }

  lemma WithPhyJoin(a: seq<Device>, b: seq<Device>, n: Num)
    ensures WithPhy(a + b, n) == WithPhy(a, n) + WithPhy(b, n)
  {
    if a != [] {
      assert (a + b)[0] == a[0];
      assert (a + b)[1..] == a[1..] + b;
      WithPhyJoin(a[1..], b, n);
      var h := if a[0].phy == n then [a[0]] else [];
      assert WithPhy(a + b, n) == h + WithPhy(a[1..] + b, n);
      AppendAssoc(h, WithPhy(a[1..], n), WithPhy(b, n));
    } else {
      assert a + b == b;
    }
  }

  lemma {:induction false} InsertPermutes(d: Device, s: seq<Device>)
    ensures multiset(Insert(d, s)) == multiset([d] + s)
  {
    if s != [] && After(d, s[0]) {
      InsertPermutes(d, s[1..]);
      assert s == [s[0]] + s[1..];
    }
  }

  lemma {:induction false} InsertOrdered(d: Device, s: seq<Device>)
    requires Ordered(s) && AllIndexed(s) && d.phy.Int?
    ensures Ordered(Insert(d, s)) && AllIndexed(Insert(d, s))
  {
    var r := Insert(d, s);
    if s == [] || !After(d, s[0]) {
      assert r == [d] + s;
    } else {
      var t := Insert(d, s[1..]);
      InsertOrdered(d, s[1..]);
      InsertPermutes(d, s[1..]);
      assert r == [s[0]] + t;
      forall j | 0 <= j < |t|
        ensures !After(s[0], t[j])
      {
        assert t[j] in multiset([d] + s[1..]);
        if t[j] != d {
          assert t[j] in s[1..];
        }
      }
    }
  }

  lemma {:induction false} InsertWithPhy(d: Device, s: seq<Device>, n: Num)
    ensures WithPhy(Insert(d, s), n) == WithPhy([d] + s, n)
  {
    if s != [] && After(d, s[0]) {
      InsertWithPhy(d, s[1..], n);
      WithPhyJoin([s[0]], Insert(d, s[1..]), n);
      WithPhyJoin([d], s, n);
      WithPhyJoin([d], s[1..], n);
      WithPhyJoin([s[0]], s[1..], n);
      assert s == [s[0]] + s[1..];
    }
  }

  /** The sort only reorders. */
  lemma {:induction false} SortPermutes(devs: seq<Device>)
    ensures multiset(SortByPhy(devs)) == multiset(devs)
  {
    if devs != [] {
      SortPermutes(devs[1..]);
      InsertPermutes(devs[0], SortByPhy(devs[1..]));
      assert devs == [devs[0]] + devs[1..];
    }
  }

  /** When every phy is a number the devices come out in phy order. */
  lemma {:induction false} SortOrders(devs: seq<Device>)
    requires AllIndexed(devs)
    ensures Ordered(SortByPhy(devs)) && AllIndexed(SortByPhy(devs))
  {
    if devs != [] {
      assert AllIndexed(devs[1..]) by {
        assert forall i :: 0 <= i < |devs[1..]| ==> devs[1..][i] == devs[i + 1];
      }
      SortOrders(devs[1..]);
      InsertOrdered(devs[0], SortByPhy(devs[1..]));
    }
  }

  /** The sort is stable: the devices of each phy keep their order. */
  lemma {:induction false} SortStable(devs: seq<Device>, n: Num)
    ensures WithPhy(SortByPhy(devs), n) == WithPhy(devs, n)
  {
    if devs != [] {
      var rest := SortByPhy(devs[1..]);
      SortStable(devs[1..], n);
      InsertWithPhy(devs[0], rest, n);
      WithPhyJoin([devs[0]], rest, n);
      WithPhyJoin([devs[0]], devs[1..], n);
      assert devs == [devs[0]] + devs[1..];
    }
  }

  /** What `parse_dev_list` returns: the devices of all phy blocks, sorted by
      phy when every phy is a number, each phy's devices in output order. */
  lemma ParseDevListSpec(stdout: string, n: Num)
    ensures multiset(ParseDevList(stdout)) == multiset(Devices(Pieces(stdout, BeforePhy)))
    ensures AllIndexed(Devices(Pieces(stdout, BeforePhy))) ==> Ordered(ParseDevList(stdout))
    ensures WithPhy(ParseDevList(stdout), n) == WithPhy(Devices(Pieces(stdout, BeforePhy)), n)
  {
    var devs := Devices(Pieces(stdout, BeforePhy));
    SortPermutes(devs);
    SortStable(devs, n);
    if AllIndexed(devs) {
      SortOrders(devs);
    }
  }

  /** Output without any `phy#` (as when nl80211 is missing) lists no device. */
  lemma NoPhyNoDevices(stdout: string)
    requires !Contains(stdout, "phy#")
    ensures ParseDevList(stdout) == []
  {
    forall r | 0 <= r < |stdout|
      ensures !CutsAt(stdout, r, BeforePhy)
    {
      if CutsAt(stdout, r, BeforePhy) {
        ContainsAt(stdout, "phy#", r);
      }
    }
    UncutFrom(stdout, BeforePhy, 0, 1);
    if Match(stdout, "phy#", DigitLine).Some? {
      var j := MatchPosition(stdout, "phy#", DigitLine);
      ContainsAt(stdout, "phy#", j);
    }
    assert Devices([stdout]) == ParsePhy(stdout) + Devices([]);
  }

  /** The message `iw dev` prints without nl80211 lists no device. */
  lemma NotFoundListsNothing()
    ensures ParseDevList("nl80211 not found.\n") == []
  {
    var s := "nl80211 not found.\n";
    assert forall j :: 0 <= j < |s| ==> s[j] != 'p';
    forall j | 0 <= j <= |s|
      ensures !StartsWith(s[j..], "phy#")
    {
      if j < |s| {
        assert s[j..][0] == s[j];
      }
    }
    NotContains(s, "phy#");
    NoPhyNoDevices(s);
  }

  /** The device order of the listing in the repository's test: a phy 1
      device listed before two phy 0 devices ends up last, and the phy 0
      devices keep their order. */
  lemma SortedAsInTest(w0: Device, u: Device, w1: Device)
    requires w0.phy == Int(1) && u.phy == Int(0) && w1.phy == Int(0)
    ensures SortByPhy([w0, u, w1]) == [u, w1, w0]
  {
    assert [w0, u, w1][1..] == [u, w1];
    assert [u, w1][1..] == [w1];
    assert SortByPhy([w1]) == [w1];
    assert SortByPhy([u, w1]) == [u, w1];
    assert Insert(w0, [w1]) == [w1, w0];
  }

  // ---------------------------------------------------------------- lookup

  /** The test of `find`: a truthy `ifindex` (0 and `NaN` are falsy) and a
      phy strictly equal to the wanted one (`NaN` equals nothing). */
  predicate Serves(d: Device, phy: Num) {
    d.ifindex.Some? && d.ifindex.value.Int? && d.ifindex.value.i != 0 && phy.Int? && d.phy == phy
  }

  /** `Array.prototype.find` with `Serves`. */
  function Find(devs: seq<Device>, phy: Num): Option<Device> {
    if devs == [] then None
    else if Serves(devs[0], phy) then Some(devs[0])
    else Find(devs[1..], phy)
  }

  lemma {:induction false} FindFirst(devs: seq<Device>, phy: Num)
    ensures Find(devs, phy).None? <==> forall i :: 0 <= i < |devs| ==> !Serves(devs[i], phy)
    ensures Find(devs, phy).Some? ==>
      exists i :: 0 <= i < |devs| && devs[i] == Find(devs, phy).value && Serves(devs[i], phy)
        && forall j :: 0 <= j < i ==> !Serves(devs[j], phy)
  {
    if devs != [] && !Serves(devs[0], phy) {
      FindFirst(devs[1..], phy);
      if Find(devs, phy).Some? {
        var i :| 0 <= i < |devs[1..]| && devs[1..][i] == Find(devs, phy).value && Serves(devs[1..][i], phy)
          && forall j :: 0 <= j < i ==> !Serves(devs[1..][j], phy);
        assert devs[i + 1] == devs[1..][i];
        assert forall j :: 1 <= j < i + 1 ==> devs[j] == devs[1..][j - 1];
      }
    }
  }

  /** `find_dev_by_phy(phy)` over a device list: the interface of the device
      found, or `None` (`found && found.iface`). */
  function FindDevByPhy(devs: seq<Device>, phy: string): Option<string> {
    var found := Find(devs, ParseInt(phy));
    if found.None? then None else found.value.iface
  }

  function NoDevFound(phy: string): string {
    "No dev found for phy#" + phy
  }

  /** `get_dev_by_phy(phy)` over a device list. */
  function GetDevByPhy(devs: seq<Device>, phy: string): Result<string, string> {
    var found := FindDevByPhy(devs, phy);
    if found.None? || found.value == "" then Err(NoDevFound(phy)) else Ok(found.value)
  }

  /** `get_dev_by_phy` gives the interface of the first listed device that
      has an interface index and the wanted phy, and fails when there is
      none; devices without an index (`Unnamed/non-netdev`) are never given. */
  lemma GetDevByPhySpec(devs: seq<Device>, phy: string)
    ensures GetDevByPhy(devs, phy).Ok? ==>
      exists i :: 0 <= i < |devs| && Serves(devs[i], ParseInt(phy))
        && devs[i].iface == Some(GetDevByPhy(devs, phy).value)
        && forall j :: 0 <= j < i ==> !Serves(devs[j], ParseInt(phy))
    ensures (forall i :: 0 <= i < |devs| ==> !Serves(devs[i], ParseInt(phy))) ==>
      GetDevByPhy(devs, phy) == Err(NoDevFound(phy))
  {
    FindFirst(devs, ParseInt(phy));
  }

  /** `REG_IFACE_PHY` (`/phy[#]?(\d+)/`): the phy number an interface name
      refers to, if it names one. */
  function PhyRef(name: string): Option<string> {
    Match(name, "phy", PhyNumber)
  }

  /** An interface name as `create` and `normalize` resolve it: a name that
      refers to a phy becomes that phy's interface, any other stays. */
  function ResolvePhy(devs: seq<Device>, name: string): Result<string, string> {
    var m := PhyRef(name);
    if m.Some? then GetDevByPhy(devs, m.value) else Ok(name)
  }

  /** Names without `phy` followed by a number are kept as they are; names
      with one resolve to a listed interface of that phy or fail. */
  lemma ResolvePhySpec(devs: seq<Device>, name: string)
    ensures !Contains(name, "phy") ==> ResolvePhy(devs, name) == Ok(name)
    ensures PhyRef(name).Some? ==>
      AllDigits(PhyRef(name).value) && PhyRef(name).value != [] &&
      (ResolvePhy(devs, name).Ok? ==>
        exists i :: 0 <= i < |devs| && devs[i].iface == Some(ResolvePhy(devs, name).value)
          && Serves(devs[i], ParseInt(PhyRef(name).value)))
  {
    if PhyRef(name).Some? {
      var j := MatchPosition(name, "phy", PhyNumber);
      TakeShape(name[j + 3..], PhyNumber);
      ContainsAt(name, "phy", j);
      GetDevByPhySpec(devs, PhyRef(name).value);
    }
  }
}
