/** How `/bin/sh -c <line>` cuts a command line into the words the program
    receives.  Both `exec` (lib/wpa.js) and `execa.shell` (lib/ap.js) hand
    their joined line to the shell.  Modelled: blanks separate words; single
    quotes keep everything up to the next single quote; double quotes keep
    everything up to the next double quote, except that a backslash escapes
    `"`, `\`, `$` and the backquote; a backslash outside quotes keeps the
    next character.  A quote left open is a syntax error and nothing runs. */
module Shell {
  import opened Common
  import opened Text

  datatype Mode = Plain | Single | Double | Escaped | DoubleEscaped

  /** The reader's state: the finished words, the word being read, whether
      a word has begun (an empty `''` is still a word), and the quoting in
      force. */
  datatype Reader = Reader(words: seq<string>, word: string, started: bool, mode: Mode)

  const Start := Reader([], "", false, Plain)

  /** The characters that end a word outside quotes. */
  predicate Blank(c: char) {
    c == ' ' || c == '\t' || c == '\n'
  }

  /** The characters a word must avoid to reach the program as it is
      written: blanks, quotes, the backslash, and the shell's other syntax
      (operators, expansions, globs, comments, `~`). */
  const Special: set<char> :=
    {' ', '\t', '\n', '\'', '"', '\\', '|', '&', ';', '<', '>', '(', ')', '$', '`', '*', '?', '[', '#', '~'}

  /** A word the shell passes on unchanged. */
  predicate PlainWord(t: string) {
    t != "" && Avoids(t, Special)
  }

  /** Lower-case letters, digits and `_`: none of them is special. */
  predicate WordChar(c: char) {
    ('a' <= c <= 'z') || ('0' <= c <= '9') || c == '_'
  }

  /** A non-empty word of lower-case letters, digits and `_` is plain. */
  lemma WordCharsPlain(t: string)
    requires t != "" && forall i :: 0 <= i < |t| ==> WordChar(t[i])
    ensures PlainWord(t)
  {
  }

  /** The reader after one more character. */
  function Step(r: Reader, c: char): Reader {
    match r.mode
    case Plain =>
      if Blank(c) then (if r.started then Reader(r.words + [r.word], "", false, Plain) else r)
      else if c == '\'' then r.(started := true, mode := Single)
      else if c == '"' then r.(started := true, mode := Double)
      else if c == '\\' then r.(started := true, mode := Escaped)
      else r.(word := r.word + [c], started := true)
    case Single =>
      if c == '\'' then r.(mode := Plain) else r.(word := r.word + [c])
    case Double =>
      if c == '"' then r.(mode := Plain)
      else if c == '\\' then r.(mode := DoubleEscaped)
      else r.(word := r.word + [c])
    case Escaped =>
      r.(word := r.word + [c], mode := Plain)
    case DoubleEscaped =>
      if c in {'"', '\\', '$', '`'} then r.(word := r.word + [c], mode := Double)
      else r.(word := r.word + ['\\', c], mode := Double)
  }

  /** The reader after a whole text, one character at a time. */
  function Read(r: Reader, text: string): Reader
    decreases |text|
  {
    if text == [] then r else Read(Step(r, text[0]), text[1..])
  }

  /** The words once the line ends: `None` while a quote is open; a
      trailing backslash stands for itself. */
  function Finish(r: Reader): Option<seq<string>> {
    match r.mode
    case Plain => Some(r.words + (if r.started then [r.word] else []))
    case Escaped => Some(r.words + [r.word + "\\"])
    case _ => None
  }

  /** The words the shell reads from a line, or `None` for a syntax error. */
  function Words(line: string): Option<seq<string>> {
    Finish(Read(Start, line))
  }

  // ---------------------------------------------------------------- reading piecewise

  lemma {:induction false} ReadConcat(r: Reader, a: string, b: string)
    ensures Read(r, a + b) == Read(Read(r, a), b)
    decreases |a|
  {
    if a != [] {
      assert (a + b)[0] == a[0] && (a + b)[1..] == a[1..] + b;
      ReadConcat(Step(r, a[0]), a[1..], b);
    } else {
      assert a + b == b;
    }
  }

  lemma ReadOne(r: Reader, c: char)
    ensures Read(r, [c]) == Step(r, c)
  {
    assert [c][1..] == [];
  }

  /** Words already finished play no part in reading the rest. */
  lemma {:induction false} ReadShift(r: Reader, ws: seq<string>, t: string)
    ensures Read(r.(words := ws + r.words), t) == Read(r, t).(words := ws + Read(r, t).words)
    decreases |t|
  {
    if t != [] {
      var s := Step(r, t[0]);
      assert Step(r.(words := ws + r.words), t[0]) == s.(words := ws + s.words) by {
        if r.mode == Plain && Blank(t[0]) && r.started {
          assert ws + r.words + [r.word] == ws + (r.words + [r.word]);
        }
      }
      ReadShift(s, ws, t[1..]);
    }
  }

  /** Text without special characters outside quotes extends the word. */
  lemma {:induction false} ReadPlain(r: Reader, t: string)
    requires r.mode == Plain && Avoids(t, Special)
    ensures Read(r, t) == r.(word := r.word + t, started := r.started || t != "")
    decreases |t|
  {
    if t != [] {
      ReadPlain(Step(r, t[0]), t[1..]);
      assert r.word + [t[0]] + t[1..] == r.word + t;
    } else {
      assert r.word + t == r.word;
    }
  }

  /** Inside single quotes, text without a single quote is kept as it is. */
  lemma {:induction false} ReadSingle(r: Reader, t: string)
    requires r.mode == Single && '\'' !in t
    ensures Read(r, t) == r.(word := r.word + t)
    decreases |t|
  {
    if t != [] {
      assert t[0] != '\'' && '\'' !in t[1..];
      ReadSingle(Step(r, t[0]), t[1..]);
      assert r.word + [t[0]] + t[1..] == r.word + t;
    } else {
      assert r.word + t == r.word;
    }
  }

  /** Outside quotes, text without quotes or backslashes leaves the reader
      outside quotes. */
  lemma {:induction false} ReadStaysPlain(r: Reader, t: string)
    requires r.mode == Plain && Avoids(t, {'\'', '"', '\\'})
    ensures Read(r, t).mode == Plain
    decreases |t|
  {
    if t != [] {
      ReadStaysPlain(Step(r, t[0]), t[1..]);
    }
  }

  // ---------------------------------------------------------------- what the shell reads

  /** A plain word, then a blank, then the rest: the word, then the rest's
      words, and a syntax error exactly when the rest has one. */
  lemma WordsAfter(a: string, t: string)
    requires PlainWord(a)
    ensures Words(a + " " + t) == if Words(t).Some? then Some([a] + Words(t).value) else None
  {
    ReadConcat(Start, a + " ", t);
    ReadConcat(Start, a, " ");
    ReadPlain(Start, a);
    assert "" + a == a;
    ReadOne(Start.(word := a, started := true), ' ');
    var r := Reader([a], "", false, Plain);
    assert Read(Start, a + " ") == r;
    ReadShift(Start, [a], t);
    assert r == Start.(words := [a] + Start.words);
    FinishShift(Read(Start, t), [a]);
  }

  /** Finished words stay in front of the ones the end of the line adds. */
  lemma FinishShift(r: Reader, ws: seq<string>)
    ensures Finish(r.(words := ws + r.words)) == if Finish(r).Some? then Some(ws + Finish(r).value) else None
  {
    if r.mode == Plain {
      assert ws + r.words + (if r.started then [r.word] else []) == ws + (r.words + (if r.started then [r.word] else []));
    } else if r.mode == Escaped {
      assert ws + r.words + [r.word + "\\"] == ws + (r.words + [r.word + "\\"]);
    }
  }

  /** An empty line has no words. */
  lemma NoWords()
    ensures Words("") == Some([])
  {
    assert Read(Start, "") == Start;
    assert Start.words + [] == [];
  }

  /** A plain word is read as itself. */
  lemma PlainAlone(a: string)
    requires PlainWord(a)
    ensures Words(a) == Some([a])
  {
    ReadPlain(Start, a);
    assert "" + a == a;
    assert [] + [a] == [a];
  }

  /** Plain words joined by single spaces are read back as those words. */
  lemma {:induction false} JoinWords(ws: seq<string>)
    requires forall i :: 0 <= i < |ws| ==> PlainWord(ws[i])
    ensures Words(Join(ws, " ")) == Some(ws)
  {
    if |ws| == 1 {
      PlainAlone(ws[0]);
      assert Join(ws, " ") == ws[0] && [ws[0]] == ws;
    } else if |ws| > 1 {
      JoinWords(ws[1..]);
      assert Join(ws, " ") == ws[0] + " " + Join(ws[1..], " ");
      WordsAfter(ws[0], Join(ws[1..], " "));
      assert [ws[0]] + ws[1..] == ws;
    } else {
      NoWords();
    }
  }

  /** Text without a single quote, wrapped in single quotes, is one word. */
  lemma SingleQuoted(v: string)
    requires '\'' !in v
    ensures Words("'" + v + "'") == Some([v])
  {
    var r := Reader([], "", true, Single);
    ReadConcat(Start, "'" + v, "'");
    ReadConcat(Start, "'", v);
    ReadOne(Start, '\'');
    ReadSingle(r, v);
    assert "" + v == v;
    ReadOne(r.(word := v), '\'');
    assert [] + [v] == [v];
  }

  /** Outside quotes, a single-quoted text without a single quote extends
      the word by that text. */
  lemma QuotedAfter(r: Reader, w: string)
    requires r.mode == Plain && '\'' !in w
    ensures Read(r, "'" + w + "'") == r.(word := r.word + w, started := true)
  {
    var r1 := r.(started := true, mode := Single);
    ReadConcat(r, "'" + w, "'");
    ReadConcat(r, "'", w);
    ReadOne(r, '\'');
    ReadSingle(r1, w);
    ReadOne(r1.(word := r1.word + w), '\'');
  }

  /** Two single-quoted texts around plain text make one word: the quotes
      go and the three texts are joined. */
  lemma QuotedPlainQuoted(u: string, v: string, w: string)
    requires '\'' !in u && Avoids(v, Special) && '\'' !in w
    ensures Words("'" + u + "'" + v + "'" + w + "'") == Some([u + v + w])
  {
    var p := "'" + u + "'";
    var q := "'" + w + "'";
    assert "'" + u + "'" + v + "'" + w + "'" == p + v + q;
    ReadConcat(Start, p + v, q);
    ReadConcat(Start, p, v);
    QuotedAfter(Start, u);
    assert "" + u == u;
    var r1 := Reader([], u, true, Plain);
    ReadPlain(r1, v);
    QuotedAfter(r1.(word := u + v), w);
    assert [] + [u + v + w] == [u + v + w];
  }

  // ---------------------------------------------------------------- quoting any text

  /** Every single quote written as `'\''`: close the quotes, an escaped
      quote, reopen them. */
  function EscapeQuotes(v: string): string {
    if v == [] then []
    else (if v[0] == '\'' then "'\\''" else [v[0]]) + EscapeQuotes(v[1..])
  }

  /** Inside single quotes that began a word, escaped text is read back as
      the original text. */
  lemma {:induction false} ReadEscaped(r: Reader, v: string)
    requires r.mode == Single && r.started
    ensures Read(r, EscapeQuotes(v)) == r.(word := r.word + v)
    decreases |v|
  {
    if v == [] {
      assert r.word + v == r.word;
    } else {
      var s := r.(word := r.word + [v[0]]);
      assert EscapeQuotes(v) == (if v[0] == '\'' then "'\\''" else [v[0]]) + EscapeQuotes(v[1..]);
      if v[0] == '\'' {
        ReadConcat(r, "'\\''", EscapeQuotes(v[1..]));
        QuoteEscape(r);
      } else {
        ReadConcat(r, [v[0]], EscapeQuotes(v[1..]));
        ReadOne(r, v[0]);
      }
      ReadEscaped(s, v[1..]);
      assert r.word + [v[0]] + v[1..] == r.word + v;
    }
  }

  /** The four characters `'\''` add one single quote and leave the quotes open. */
  lemma QuoteEscape(r: Reader)
    requires r.mode == Single && r.started
    ensures Read(r, "'\\''") == r.(word := r.word + "'")
  {
    var t := "'\\''";
    assert t == "'" + "\\" + "'" + "'";
    ReadConcat(r, "'" + "\\" + "'", "'");
    ReadConcat(r, "'" + "\\", "'");
    ReadConcat(r, "'", "\\");
    var r1 := r.(mode := Plain);
    ReadOne(r, '\'');
    var r2 := r1.(mode := Escaped);
    ReadOne(r1, '\\');
    var r3 := r2.(word := r.word + "'", mode := Plain);
    ReadOne(r2, '\'');
    ReadOne(r3, '\'');
  }

  /** Any text, escaped and wrapped in single quotes, is read back as exactly
      that text in one word. */
  lemma QuotedAny(v: string)
    ensures Words("'" + EscapeQuotes(v) + "'") == Some([v])
  {
    var r := Reader([], "", true, Single);
    ReadConcat(Start, "'" + EscapeQuotes(v), "'");
    ReadConcat(Start, "'", EscapeQuotes(v));
    ReadOne(Start, '\'');
    ReadEscaped(r, v);
    assert "" + v == v;
    ReadOne(r.(word := v), '\'');
    assert [] + [v] == [v];
  }
}
