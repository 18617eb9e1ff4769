/** The JavaScript string operations the source relies on, restricted to ASCII:
    `trim`, `split` on one character or a character class, `join`,
    `indexOf`/`startsWith`, `toUpperCase`/`toLowerCase`, and the decimal
    conversions behind `parseInt` and `String(n)`. */
module Text {
  import opened Common

  // ---------------------------------------------------------------- whitespace

  /** The characters `String.prototype.trim` removes (ASCII part only). */
  predicate IsSpace(c: char) {
    c == ' ' || c == '\t' || c == '\n' || c == '\r' || c == '\U{B}' || c == '\U{C}'
  }

  /** No character of `s` is one of `cs`. */
  predicate Avoids(s: string, cs: set<char>) {
    forall i :: 0 <= i < |s| ==> s[i] !in cs
  }

  /** `s` neither starts nor ends with whitespace. */
  predicate Trimmed(s: string) {
    s == [] || (!IsSpace(s[0]) && !IsSpace(s[|s| - 1]))
  }

  function TrimStart(s: string): (r: string)
    ensures |r| <= |s|
    ensures r == [] || !IsSpace(r[0])
  {
    if s != [] && IsSpace(s[0]) then TrimStart(s[1..]) else s
  }

  function TrimEnd(s: string): (r: string)
    ensures |r| <= |s| && (r != [] ==> r[0] == s[0])
    ensures r == [] || !IsSpace(r[|r| - 1])
  {
    if s != [] && IsSpace(s[|s| - 1]) then TrimEnd(s[..|s| - 1]) else s
  }

  /** `String.prototype.trim`: drops leading and trailing whitespace. */
  function Trim(s: string): (r: string)
    ensures Trimmed(r) && |r| <= |s|
  {
    TrimEnd(TrimStart(s))
  }

  lemma TrimOfTrimmed(s: string)
    requires Trimmed(s)
    ensures Trim(s) == s
  {
  }

  /** `TrimStart` drops a run of leading whitespace and keeps the rest. */
  lemma {:induction false} TrimStartSuffix(s: string)
    ensures TrimStart(s) == s[|s| - |TrimStart(s)|..]
    ensures forall i :: 0 <= i < |s| - |TrimStart(s)| ==> IsSpace(s[i])
  {
    if s != [] && IsSpace(s[0]) {
      TrimStartSuffix(s[1..]);
    }
  }

  /** `TrimEnd` drops a run of trailing whitespace and keeps the rest. */
  lemma {:induction false} TrimEndPrefix(s: string)
    ensures TrimEnd(s) == s[..|TrimEnd(s)|]
    ensures forall i :: |TrimEnd(s)| <= i < |s| ==> IsSpace(s[i])
  {
    if s != [] && IsSpace(s[|s| - 1]) {
      TrimEndPrefix(s[..|s| - 1]);
    }
  }

  /** Trimming only removes characters, so a string that avoids a set of
      characters still does after trimming. */
  lemma TrimAvoids(s: string, cs: set<char>)
    requires Avoids(s, cs)
    ensures Avoids(Trim(s), cs)
  {
    var t := TrimStart(s);
    TrimStartSuffix(s);
    TrimEndPrefix(t);
    assert Avoids(t, cs);
  }

  /** An all-whitespace string trims to the empty string. */
  lemma TrimAllSpace(s: string)
    requires forall i :: 0 <= i < |s| ==> IsSpace(s[i])
    ensures Trim(s) == ""
  {
    TrimStartSuffix(s);
  }

  // ---------------------------------------------------------------- split / join

  /** `s.split(sep)` where `sep` is one character or a one-character regular
      expression class: every occurrence of a separator ends a piece, so
      `n` separators give `n + 1` pieces (possibly empty). */
  function Split(s: string, seps: set<char>): (r: seq<string>)
    ensures |r| >= 1
  {
    if s == [] then [""]
    else
      var rest := Split(s[1..], seps);
      if s[0] in seps then [""] + rest
      else [[s[0]] + rest[0]] + rest[1..]
  }

  /** No piece of a split contains a separator. */
  lemma {:induction false} SplitPiecesAvoid(s: string, seps: set<char>)
    ensures forall i :: 0 <= i < |Split(s, seps)| ==> Avoids(Split(s, seps)[i], seps)
  {
    if s != [] {
      SplitPiecesAvoid(s[1..], seps);
      var rest := Split(s[1..], seps);
      if s[0] !in seps {
        var p := [s[0]] + rest[0];
        assert forall j :: 0 < j < |p| ==> p[j] == rest[0][j - 1];
      }
    }
  }

  /** `parts.join(sep)`. */
  function Join(parts: seq<string>, sep: string): string
  {
    if |parts| == 0 then ""
    else if |parts| == 1 then parts[0]
    else parts[0] + sep + Join(parts[1..], sep)
  }

  lemma {:induction false} SplitAvoiding(s: string, seps: set<char>)
    requires Avoids(s, seps)
    ensures Split(s, seps) == [s]
  {
    if s != [] {
      SplitAvoiding(s[1..], seps);
      assert [s[0]] + s[1..] == s;
    }
  }

  lemma {:induction false} SplitAfterPiece(p: string, c: char, rest: string, seps: set<char>)
    requires Avoids(p, seps) && c in seps
    ensures Split(p + [c] + rest, seps) == [p] + Split(rest, seps)
  {
    if p == [] {
      assert p + [c] + rest == [c] + rest;
      assert ([c] + rest)[1..] == rest;
    } else {
      SplitAfterPiece(p[1..], c, rest, seps);
      assert (p + [c] + rest)[1..] == p[1..] + [c] + rest;
      assert [p[0]] + p[1..] == p;
    }
  }

  /** A join starts where its first part starts. */
  lemma {:induction false} JoinFirst(parts: seq<string>, sep: string)
    requires |parts| >= 1 && parts[0] != ""
    ensures Join(parts, sep) != "" && Join(parts, sep)[0] == parts[0][0]
  {
  }

  /** A join ends where its last part ends. */
  lemma {:induction false} JoinLast(parts: seq<string>, sep: string)
    requires |parts| >= 1 && parts[|parts| - 1] != ""
    ensures var j := Join(parts, sep); j != "" && j[|j| - 1] == parts[|parts| - 1][|parts[|parts| - 1]| - 1]
  {
    if |parts| > 1 {
      JoinLast(parts[1..], sep);
    }
  }

  /** Splitting undoes joining with a separator that no part contains. */
  lemma {:induction false} SplitJoin(parts: seq<string>, c: char, seps: set<char>)
    requires |parts| >= 1 && c in seps
    requires forall i :: 0 <= i < |parts| ==> Avoids(parts[i], seps)
    ensures Split(Join(parts, [c]), seps) == parts
  {
    if |parts| == 1 {
      SplitAvoiding(parts[0], seps);
    } else {
      SplitJoin(parts[1..], c, seps);
      SplitAfterPiece(parts[0], c, Join(parts[1..], [c]), seps);
      assert [parts[0]] + parts[1..] == parts;
    }
  }

  /** Joining undoes splitting on one character. */
  lemma {:induction false} JoinSplit(s: string, c: char)
    ensures Join(Split(s, {c}), [c]) == s
  {
    if s != [] {
      JoinSplit(s[1..], c);
      var rest := Split(s[1..], {c});
      if |rest| > 1 {
        assert rest == [rest[0]] + rest[1..];
      }
      if s[0] != c {
        var r := [[s[0]] + rest[0]] + rest[1..];
        assert r[1..] == rest[1..];
      }
    }
  }

  // ---------------------------------------------------------------- search

  /** Characters `.` does not match in a regular expression. */
  const LineTerminators := {'\n', '\r', '\U{2028}', '\U{2029}'}

  predicate StartsWith(s: string, p: string) {
    |p| <= |s| && s[..|p|] == p
  }

  /** The first index at or after `from` where `sub` occurs. */
  function FindFrom(s: string, sub: string, from: nat): (r: Option<nat>)
    requires from <= |s|
    ensures r.Some? ==> from <= r.value <= |s|
    decreases |s| - from
  {
    if StartsWith(s[from..], sub) then Some(from)
    else if from == |s| then None
    else FindFrom(s, sub, from + 1)
  }

  /** `FindFrom` finds an occurrence, and the first one. */
  lemma {:induction false} FindFromFirst(s: string, sub: string, from: nat)
    requires from <= |s|
    ensures var r := FindFrom(s, sub, from);
      && (r.Some? ==> StartsWith(s[r.value..], sub))
      && (r.Some? ==> forall j :: from <= j < r.value ==> !StartsWith(s[j..], sub))
      && (r.None? ==> forall j :: from <= j <= |s| ==> !StartsWith(s[j..], sub))
    decreases |s| - from
  {
    if !StartsWith(s[from..], sub) && from < |s| {
      FindFromFirst(s, sub, from + 1);
    }
  }

  /** `s.indexOf(sub)`, with `None` for `-1`. */
  function IndexOf(s: string, sub: string): Option<nat> {
    FindFrom(s, sub, 0)
  }

  /** `s.indexOf(sub) >= 0`. */
  predicate Contains(s: string, sub: string) {
    IndexOf(s, sub).Some?
  }

  /** `Contains` holds exactly when `sub` occurs somewhere in `s`. */
  lemma ContainsAt(s: string, sub: string, i: nat)
    requires i <= |s| && StartsWith(s[i..], sub)
    ensures Contains(s, sub)
  {
    FindFromFirst(s, sub, 0);
  }

  lemma NotContains(s: string, sub: string)
    requires forall j :: 0 <= j <= |s| ==> !StartsWith(s[j..], sub)
    ensures !Contains(s, sub)
  {
    FindFromFirst(s, sub, 0);
  }

  /** `sub` occurs in `s` at some position. */
  predicate OccursIn(sub: string, s: string) {
    exists i :: 0 <= i <= |s| && StartsWith(s[i..], sub)
  }

  /** `s.indexOf(sub) >= 0` says exactly that `sub` occurs in `s`. */
  lemma ContainsOccurs(s: string, sub: string)
    ensures Contains(s, sub) <==> OccursIn(sub, s)
  {
    if OccursIn(sub, s) {
      var i :| 0 <= i <= |s| && StartsWith(s[i..], sub);
      ContainsAt(s, sub, i);
    } else {
      NotContains(s, sub);
    }
  }

  // ---------------------------------------------------------------- ASCII case

  function UpperChar(c: char): char {
    if 'a' <= c <= 'z' then (c as int - 32) as char else c
  }

  function LowerChar(c: char): char {
    if 'A' <= c <= 'Z' then (c as int + 32) as char else c
  }

  /** `toUpperCase`, ASCII letters only. */
  function Upper(s: string): (r: string)
    ensures |r| == |s|
    ensures forall i :: 0 <= i < |s| ==> r[i] == UpperChar(s[i])
  {
    seq(|s|, i requires 0 <= i < |s| => UpperChar(s[i]))
  }

  /** `toLowerCase`, ASCII letters only. */
  function Lower(s: string): (r: string)
    ensures |r| == |s|
    ensures forall i :: 0 <= i < |s| ==> r[i] == LowerChar(s[i])
  {
    seq(|s|, i requires 0 <= i < |s| => LowerChar(s[i]))
  }

  // ---------------------------------------------------------------- decimal

  predicate IsDigit(c: char) { '0' <= c <= '9' }

  predicate AllDigits(s: string) {
    forall i :: 0 <= i < |s| ==> IsDigit(s[i])
  }

  function DigitChar(d: nat): (c: char)
    requires d < 10
    ensures IsDigit(c) && c as int - '0' as int == d
  {
    (d + '0' as int) as char
  }

  /** `String(n)` for a natural number. */
  function NatToString(n: nat): (r: string)
    ensures |r| >= 1 && AllDigits(r)
  {
    if n < 10 then [DigitChar(n)] else NatToString(n / 10) + [DigitChar(n % 10)]
  }

  /** The value of a run of decimal digits. */
  function DigitsValue(s: string): nat
    requires AllDigits(s)
  {
    if s == [] then 0 else DigitsValue(s[..|s| - 1]) * 10 + (s[|s| - 1] as int - '0' as int)
  }

  lemma {:induction false} DigitsValueOfNatToString(n: nat)
    ensures DigitsValue(NatToString(n)) == n
  {
    if n >= 10 {
      DigitsValueOfNatToString(n / 10);
      var s := NatToString(n);
      assert s[..|s| - 1] == NatToString(n / 10);
    }
  }

  /** Different numbers print differently. */
  lemma NatToStringInjective(m: nat, n: nat)
    requires NatToString(m) == NatToString(n)
    ensures m == n
  {
    DigitsValueOfNatToString(m);
    DigitsValueOfNatToString(n);
  }

  /** The longest prefix of `s` made of decimal digits. */
  function LeadingDigits(s: string): (r: string)
    ensures AllDigits(r) && StartsWith(s, r)
    ensures |r| < |s| ==> !IsDigit(s[|r|])
  {
    if s != [] && IsDigit(s[0]) then [s[0]] + LeadingDigits(s[1..]) else ""
  }

  lemma {:induction false} LeadingDigitsOfDigits(s: string)
    requires AllDigits(s)
    ensures LeadingDigits(s) == s
  {
    if s != [] {
      LeadingDigitsOfDigits(s[1..]);
    }
  }

  /** A JavaScript number as `parseInt` produces it: an integer or `NaN`. */
  datatype Num = NaN | Int(i: int)

  /** `parseInt(s)` in base 10: leading whitespace is skipped, an optional sign
      is read, then the longest run of digits; no digits gives `NaN`. */
  function ParseInt(s: string): Num
  {
    var t := TrimStart(s);
    var neg := t != [] && t[0] == '-';
    var u := if t != [] && (t[0] == '-' || t[0] == '+') then t[1..] else t;
    var d := LeadingDigits(u);
    if d == [] then NaN
    else Int(if neg then 0 - DigitsValue(d) as int else DigitsValue(d))
  }

  /** `String(n)` for a parsed number, as `Array.prototype.join` renders it. */
  function NumText(n: Num): string {
    match n
    case NaN => "NaN"
    case Int(i) => if i < 0 then "-" + NatToString(-i) else NatToString(i)
  }

  /** `parseInt` reads back what `String(n)` printed. */
  lemma ParseIntOfNatToString(n: nat)
    ensures ParseInt(NatToString(n)) == Int(n)
    ensures NumText(ParseInt(NatToString(n))) == NatToString(n)
  {
    var s := NatToString(n);
    assert !IsSpace(s[0]) && s[0] != '-' && s[0] != '+' by { assert IsDigit(s[0]); }
    assert TrimStart(s) == s;
    LeadingDigitsOfDigits(s);
    DigitsValueOfNatToString(n);
    assert ParseInt(s) == Int(DigitsValue(s));
  }
}
