/**
 The text of the write-ahead journal (crates/protocol/onx-state-model/src/storage.rs): one line
 for each file to remove or to write, with the content in hexadecimal.
 */
module JournalTexts {
  import opened Wrappers
  import opened Bytes
  import opened Journals

  datatype JournalError = OddLength | InvalidDigit | InvalidLine

  type FileLine = Line<string, seq<byte>>

  const DIGITS := "0123456789abcdef"

  function Hex(v: seq<byte>): (s: string)
    ensures |s| == 2 * |v|
  {
    if v == [] then [] else [DIGITS[v[0] as int / 16], DIGITS[v[0] as int % 16]] + Hex(v[1..])
  }

  function DigitValue(c: char): Option<nat> {
    if '0' <= c <= '9' then Some((c - '0') as nat)
    else if 'a' <= c <= 'f' then Some(10 + (c - 'a') as nat)
    else if 'A' <= c <= 'F' then Some(10 + (c - 'A') as nat)
    else None
  }

  /** Two characters as a byte.  The parser of the source also takes a plus sign and one digit. */
  function PairValue(c: char, d: char): Option<byte> {
    match (if c == '+' then Some(0) else DigitValue(c), DigitValue(d))
    case (Some(high), Some(low)) => if high < 16 && low < 16 then Some((16 * high + low) as byte) else None
    case _ => None
  }

  function Unhex(s: string): Result<seq<byte>, JournalError> {
    if |s| % 2 != 0 then Err(OddLength) else UnhexPairs(s)
  }

  function UnhexPairs(s: string): Result<seq<byte>, JournalError>
    requires |s| % 2 == 0
  {
    if s == [] then Ok([])
    else
      match PairValue(s[0], s[1])
      case None => Err(InvalidDigit)
      case Some(b) =>
        var rest :- UnhexPairs(s[2..]);
        Ok([b] + rest)
  }

  lemma DigitRoundTrip(n: nat)
    requires n < 16
    ensures DigitValue(DIGITS[n]) == Some(n) && DIGITS[n] !in "+ \n\r"
  {
  }

  lemma PairRoundTrip(b: byte)
    ensures PairValue(DIGITS[b as int / 16], DIGITS[b as int % 16]) == Some(b)
  {
    var high, low := b as int / 16, b as int % 16;
    DigitRoundTrip(high);
    DigitRoundTrip(low);
    assert 16 * high + low == b as int;
  }

  lemma {:induction false} HexRoundTrip(v: seq<byte>)
    ensures UnhexPairs(Hex(v)) == Ok(v)
  {
    if v != [] {
      HexRoundTrip(v[1..]);
      PairRoundTrip(v[0]);
      var s := Hex(v);
      assert s[0] == DIGITS[v[0] as int / 16] && s[1] == DIGITS[v[0] as int % 16] && s[2..] == Hex(v[1..]);
      assert [v[0]] + v[1..] == v;
    }
  }

  lemma {:induction false} HexIsPlain(v: seq<byte>)
    ensures ' ' !in Hex(v) && '\n' !in Hex(v) && '\r' !in Hex(v)
  {
    if v != [] {
      HexIsPlain(v[1..]);
      DigitRoundTrip(v[0] as int / 16);
      DigitRoundTrip(v[0] as int % 16);
    }
  }

  function LineText(line: FileLine): string {
    match line
    case Delete(path) => "D " + path + "\n"
    case Put(path, value) => "P " + path + " " + Hex(value) + "\n"
  }

  function JournalText(lines: seq<FileLine>): string {
    if lines == [] then [] else LineText(lines[0]) + JournalText(lines[1..])
  }

  /** The position of the first c in s, or the length of s. */
  function IndexOf(s: string, c: char): (i: nat)
    ensures i <= |s| && (i < |s| ==> s[i] == c)
    ensures forall j :: 0 <= j < i ==> s[j] != c
  {
    if s == [] || s[0] == c then 0 else 1 + IndexOf(s[1..], c)
  }

  lemma IndexOfSplit(a: string, c: char, b: string)
    requires c !in a
    ensures IndexOf(a + [c] + b, c) == |a|
  {
    var s := a + [c] + b;
    assert s[|a|] == c;
    assert forall j :: 0 <= j < |a| ==> s[j] == a[j];
  }

  function StripReturn(s: string): string {
    if s != [] && s[|s| - 1] == '\r' then s[..|s| - 1] else s
  }

  /** The line without its terminator, and what follows it. */
  function NextLine(text: string): (string, string)
    requires text != []
  {
    var i := IndexOf(text, '\n');
    if i == |text| then (text, []) else (StripReturn(text[..i]), text[i + 1..])
  }

  /** A journal line is split at its first two spaces. */
  function ParseLine(line: string): Result<FileLine, JournalError> {
    var i := IndexOf(line, ' ');
    if i == |line| then Err(InvalidLine) else ParseCommand(line[..i], line[i + 1..])
  }

  function ParseCommand(tag: string, rest: string): Result<FileLine, JournalError> {
    var j := IndexOf(rest, ' ');
    if tag == "D" then Ok(Delete(rest[..j]))
    else if tag == "P" && j < |rest| then ParsePut(rest[..j], rest[j + 1..])
    else Err(InvalidLine)
  }

  function ParsePut(path: string, hex: string): Result<FileLine, JournalError> {
    var value :- Unhex(hex);
    Ok(Put(path, value))
  }

  function ParseJournal(text: string): Result<seq<FileLine>, JournalError>
    decreases |text|
  {
    if text == [] then Ok([])
    else
      var (line, rest) := NextLine(text);
      var first :- ParseLine(line);
      var others :- ParseJournal(rest);
      Ok([first] + others)
  }

  /** The lines in front of the first malformed one, if there is one. */
  function GoodLines(text: string): seq<FileLine>
    decreases |text|
  {
    if text == [] then []
    else
      var (line, rest) := NextLine(text);
      match ParseLine(line)
      case Err(_) => []
      case Ok(first) => [first] + GoodLines(rest)
  }

  lemma {:induction false} AllLinesAreGood(text: string)
    requires ParseJournal(text).Ok?
    ensures GoodLines(text) == ParseJournal(text).value
    decreases |text|
  {
    if text != [] {
      AllLinesAreGood(NextLine(text).1);
    }
  }

  /** Storage paths are family names and hexadecimal digits. */
  predicate PlainPath(path: string) {
    ' ' !in path && '\n' !in path && '\r' !in path && path != []
  }

  /** The first line of a text whose first line holds no line break. */
  lemma NextLineOf(body: string, rest: string)
    requires body != [] && '\n' !in body && '\r' !in body
    ensures NextLine(body + ['\n'] + rest) == (body, rest)
  {
    var text := body + ['\n'] + rest;
    IndexOfSplit(body, '\n', rest);
    assert text[..|body|] == body && text[|body| + 1..] == rest;
    assert body[|body| - 1] in body;
  }

  lemma IndexOfAbsent(s: string, c: char)
    requires c !in s
    ensures IndexOf(s, c) == |s|
  {
  }

  /** What splitting at the first space yields. */
  lemma FirstWord(word: string, rest: string)
    requires ' ' !in word
    ensures
      var s := word + [' '] + rest;
      IndexOf(s, ' ') == |word| && s[..|word|] == word && s[|word| + 1..] == rest
  {
    IndexOfSplit(word, ' ', rest);
  }

  lemma DeleteLineParses(path: string)
    requires PlainPath(path)
    ensures ParseLine("D " + path) == Ok(Delete(path))
  {
    assert "D " + path == "D" + [' '] + path;
    FirstWord("D", path);
    assert ParseLine("D " + path) == ParseCommand("D", path);
    IndexOfAbsent(path, ' ');
    assert path[..|path|] == path;
  }

  lemma PutLineParses(path: string, hex: string, value: seq<byte>)
    requires PlainPath(path) && Unhex(hex) == Ok(value)
    ensures ParseLine("P" + [' '] + (path + [' '] + hex)) == Ok(Put(path, value))
  {
    var tail := path + [' '] + hex;
    FirstWord("P", tail);
    assert ParseLine("P" + [' '] + tail) == ParseCommand("P", tail);
    FirstWord(path, hex);
  }

  lemma PutLineIs(path: string, hex: string)
    ensures "P " + path + " " + hex == "P" + [' '] + (path + [' '] + hex)
  {
  }

  lemma PlainIsPlain(path: string)
    requires PlainPath(path)
    ensures path != [] && '\n' !in path && '\r' !in path
  {
  }

  lemma LineRoundTrip(line: FileLine, rest: string)
    requires PlainPath(line.key)
    ensures
      var text := LineText(line) + rest;
      NextLine(text).1 == rest && ParseLine(NextLine(text).0) == Ok(line)
  {
    hide ParseLine, NextLine, Hex, GoodLines, ParseJournal, PlainPath;
    PlainIsPlain(line.key);
    var path := line.key;
    match line
    case Delete(_) =>
      var body := "D " + path;
      assert LineText(line) + rest == body + ['\n'] + rest;
      NextLineOf(body, rest);
      DeleteLineParses(path);
    case Put(_, value) =>
      HexIsPlain(value);
      var body := "P " + path + " " + Hex(value);
      assert LineText(line) + rest == body + ['\n'] + rest;
      NextLineOf(body, rest);
      HexRoundTrip(value);
      PutLineIs(path, Hex(value));
      PutLineParses(path, Hex(value), value);
  }

  /** A journal parses back to the lines it was written from. */
  lemma {:induction false} JournalRoundTrip(lines: seq<FileLine>)
    requires forall i :: 0 <= i < |lines| ==> PlainPath(lines[i].key)
    ensures ParseJournal(JournalText(lines)) == Ok(lines)
  {
    if lines != [] {
      LineRoundTrip(lines[0], JournalText(lines[1..]));
      JournalRoundTrip(lines[1..]);
      assert [lines[0]] + lines[1..] == lines;
    }
  }

  lemma Associative(a: string, b: string, c: string)
    ensures a + (b + c) == (a + b) + c
  {
  }

  lemma {:induction false} JournalTextAppend(lines: seq<FileLine>, line: FileLine)
    ensures JournalText(lines + [line]) == JournalText(lines) + LineText(line)
  {
    if lines == [] {
      assert lines + [line] == [line] && [line][1..] == [];
      var text := LineText(line);
      assert JournalText([line]) == text + [];
    } else {
      JournalTextAppend(lines[1..], line);
      assert (lines + [line])[1..] == lines[1..] + [line];
      Associative(LineText(lines[0]), JournalText(lines[1..]), LineText(line));
    }
  }

  /** Writes a batch as journal text: all removals first, then all writes. */
  method WriteJournal(removes: seq<string>, puts: seq<(string, seq<byte>)>) returns (data: string)
    ensures data == JournalText(BatchLines(removes, puts))
  {
    ghost var lines := BatchLines(removes, puts);
    data := WriteRemoves(removes, lines);
    data := WritePuts(data, puts, lines, |removes|);
  }

  method WriteRemoves(removes: seq<string>, ghost lines: seq<FileLine>) returns (data: string)
    requires |removes| <= |lines|
    requires forall i :: 0 <= i < |removes| ==> lines[i] == Delete(removes[i])
    ensures data == JournalText(lines[..|removes|])
  {
    hide LineText, Hex;
    data := [];
    for i := 0 to |removes|
      invariant data == JournalText(lines[..i])
    {
      JournalTextAppend(lines[..i], lines[i]);
      assert lines[..i + 1] == lines[..i] + [lines[i]];
      var text := LineText(Delete(removes[i]));
      data := data + text;
    }
  }

  method WritePuts(data: string, puts: seq<(string, seq<byte>)>, ghost lines: seq<FileLine>, ghost start: nat)
    returns (data': string)
    requires |lines| == start + |puts|
    requires forall i :: 0 <= i < |puts| ==> lines[start + i] == Put(puts[i].0, puts[i].1)
    requires data == JournalText(lines[..start])
    ensures data' == JournalText(lines)
  {
    hide LineText, Hex, JournalText;
    data' := data;
    for i := 0 to |puts|
      invariant data' == JournalText(lines[..start + i])
    {
      ghost var n := start + i;
      JournalTextAppend(lines[..n], lines[n]);
      assert lines[..n + 1] == lines[..n] + [lines[n]];
      var text := LineText(Put(puts[i].0, puts[i].1));
      data' := data' + text;
    }
    assert lines[..start + |puts|] == lines;
  }

  /** Reads a journal and carries out its lines one by one; a malformed line stops it, with all lines before it done. */
  method RecoverText(text: string, files: map<string, seq<byte>>)
    returns (r: Result<(), JournalError>, files': map<string, seq<byte>>)
    ensures r.Ok? <==> ParseJournal(text).Ok?
    ensures files' == Replay(GoodLines(text), files)
    ensures r.Ok? ==> files' == Replay(ParseJournal(text).value, files)
  {
    files' := files;
    var rest := text;
    while rest != []
      invariant ParseJournal(text).Ok? <==> ParseJournal(rest).Ok?
      invariant Replay(GoodLines(text), files) == Replay(GoodLines(rest), files')
      decreases |rest|
    {
      var (line, after) := NextLine(rest);
      match ParseLine(line)
      case Err(e) =>
        return Err(e), files';
      case Ok(command) =>
        match command {
          case Delete(path) => files' := files' - {path};
          case Put(path, value) => files' := files'[path := value];
        }
        rest := after;
    }
    AllLinesAreGood(text);
    r := Ok(());
  }

  /** Writing a batch and recovering from its text carries out the batch. */
  lemma BatchRoundTrip(removes: seq<string>, puts: seq<(string, seq<byte>)>)
    requires forall p :: p in removes ==> PlainPath(p)
    requires forall p :: p in puts ==> PlainPath(p.0)
    ensures ParseJournal(JournalText(BatchLines(removes, puts))) == Ok(BatchLines(removes, puts))
  {
    JournalRoundTrip(BatchLines(removes, puts));
  }
}
