/** Configuration files: the writer, one line for each key and value, and the reader, which
    strips comments, stops at a sentry and looks ahead for values that go on. */
module ConfigFiles {
  import opened Sequences

  // ---------------------------------------------------------------------------
  // Strings
  // ---------------------------------------------------------------------------

  predicate IsPrefix(p: string, s: string) { |p| <= |s| && s[..|p|] == p }

  // The first place where a pattern occurs, or -1
  function Find(s: string, p: string): (i: int)
    ensures -1 <= i && (i >= 0 ==> i + |p| <= |s|)
    decreases |s|
  {
    if IsPrefix(p, s) then 0
    else if s == "" then -1
    else
      var i := Find(s[1..], p);
      if i < 0 then -1 else i + 1
  }

  // Find() is the first place, or says that there is none
  lemma {:induction false} FindIs(s: string, p: string)
    ensures Find(s, p) >= 0 ==> IsPrefix(p, s[Find(s, p)..])
    ensures forall j :: 0 <= j <= |s| && (Find(s, p) < 0 || j < Find(s, p)) ==> !IsPrefix(p, s[j..])
    decreases |s|
  {
    assert s[0..] == s;
    if !IsPrefix(p, s) && s != "" {
      FindIs(s[1..], p);
      assert forall j :: 0 < j <= |s| ==> s[j..] == s[1..][j - 1..];
    }
  }

  // A place at which the pattern occurs and before which it does not is the first one
  lemma FoundAt(s: string, p: string, i: nat)
    requires i <= |s| && IsPrefix(p, s[i..]) && forall j :: 0 <= j < i ==> !IsPrefix(p, s[j..])
    ensures Find(s, p) == i
  {
    FindIs(s, p);
  }

  predicate Contains(s: string, p: string) { Find(s, p) >= 0 }

  predicate IsSpace(c: char) { c == ' ' || c == '\n' || c == '\t' || c == '\U{0B}' || c == '\r' || c == '\U{0C}' }

  function TrimLeft(s: string): string
    decreases |s|
  {
    if s != "" && IsSpace(s[0]) then TrimLeft(s[1..]) else s
  }

  function TrimRight(s: string): string
    decreases |s|
  {
    if s != "" && IsSpace(s[|s| - 1]) then TrimRight(s[..|s| - 1]) else s
  }

  function Trim(s: string): string { TrimRight(TrimLeft(s)) }

  predicate Trimmed(s: string) { s == "" || (!IsSpace(s[0]) && !IsSpace(s[|s| - 1])) }

  lemma TrimSpaces(s: string)
    requires Trimmed(s)
    ensures Trim(" " + s) == s && Trim(s + " ") == s
  {
    assert (" " + s)[1..] == s;
    if s == "" {
      assert s + " " == " " && " " + s == " " && " "[1..] == "";
    } else {
      assert TrimLeft(s) == s && TrimRight(s) == s;
      assert TrimLeft(" " + s) == TrimLeft(s);
      assert TrimLeft(s + " ") == s + " ";
      assert (s + " ")[..|s|] == s;
    }
  }

  // ---------------------------------------------------------------------------
  // Streams
  // ---------------------------------------------------------------------------

  // What is left to read, and the two state bits
  datatype Stream = Stream(text: string, eof: bool, fail: bool)

  function Open(text: string): Stream { Stream(text, false, false) }

  // std::getline(): a stream that is not good fails and leaves the line as it was
  function GetLine(s: Stream, line: string): (r: (Stream, string))
    ensures s.fail || Left(r.0) < Left(s)
  {
    if s.eof || s.fail then (s.(fail := true), line)
    else if s.text == "" then (Stream("", true, true), "")
    else
      var i := Find(s.text, "\n");
      if i < 0 then (Stream("", true, false), s.text) else (Open(s.text[i + 1..]), s.text[..i])
  }

  function Left(s: Stream): nat {
    if s.fail then 0 else if s.eof then 1 else 2 + |s.text|
  }

  // ---------------------------------------------------------------------------
  // The reader
  // ---------------------------------------------------------------------------

  datatype Syntax = Syntax(delimiter: string, comment: string, sentry: string)

  function Uncomment(c: Syntax, line: string): string {
    var i := Find(line, c.comment);
    if i < 0 then line else line[..i]
  }

  predicate HasSentry(c: Syntax, line: string) { c.sentry != "" && Contains(line, c.sentry) }

  // A line that the value so far goes on with, after its comment has been stripped
  predicate GoesOn(c: Syntax, cut: string) { !Contains(cut, c.delimiter) && !HasSentry(c, cut) }

  function Extend(value: string, cut: string): string { value + (if Trim(cut) != "" then "\n" else "") + cut }

  // The inner loop: what it leaves of the stream, the value, and the line it read ahead
  function ReadOn(c: Syntax, s: Stream, value: string, nextLine: string): (r: (Stream, string, string))
    ensures Left(r.0) <= Left(s)
    ensures !s.fail ==> Left(r.0) < Left(s)
    ensures s.fail ==> r == (s, value, nextLine)
    decreases Left(s)
  {
    if s.fail then (s, value, nextLine)
    else
      var (s1, next) := GetLine(s, nextLine);
      if Trim(next) == "" then (s1, value, next)
      else
        var cut := Uncomment(c, next);
        if GoesOn(c, cut) then ReadOn(c, s1, Extend(value, cut), cut) else (s1, value, cut)
  }

  // The outer loop
  function ReadAll(c: Syntax, s: Stream, nextLine: string, contents: map<string, string>): map<string, string>
    decreases Left(s), |nextLine|
  {
    if s.fail && nextLine == "" then contents
    else
      var (s1, whole) := if nextLine != "" then (s, nextLine) else GetLine(s, "");
      var line := Uncomment(c, whole);
      if HasSentry(c, line) then contents
      else
        var p := Find(line, c.delimiter);
        if p < 0 then ReadAll(c, s1, "", contents)
        else
          var (s2, value, next) := ReadOn(c, s1, line[p + |c.delimiter|..], "");
          ReadAll(c, s2, next, contents[Trim(line[..p]) := Trim(value)])
  }

  // ---------------------------------------------------------------------------
  // The writer
  // ---------------------------------------------------------------------------

  datatype Entry = Entry(key: string, value: string)

  function EntryText(c: Syntax, e: Entry): string { e.key + " " + c.delimiter + " " + e.value + "\n" }

  function Text(c: Syntax, entries: seq<Entry>): string {
    if entries == [] then "" else EntryText(c, entries[0]) + Text(c, entries[1..])
  }

  // Storing entries one after the other
  function Store(contents: map<string, string>, entries: seq<Entry>): map<string, string>
    decreases |entries|
  {
    if entries == [] then contents else Store(contents[entries[0].key := entries[0].value], entries[1..])
  }

  // ---------------------------------------------------------------------------
  // Which entries survive
  // ---------------------------------------------------------------------------

  function Lines(s: string): (lines: seq<string>)
    ensures lines != []
    decreases |s|
  {
    var i := Find(s, "\n");
    if i < 0 then [s] else [s[..i]] + Lines(s[i + 1..])
  }

  function LinesText(lines: seq<string>): string {
    if lines == [] then "" else lines[0] + "\n" + LinesText(lines[1..])
  }

  function More(lines: seq<string>): string {
    if lines == [] then "" else "\n" + lines[0] + More(lines[1..])
  }

  function FirstLine(c: Syntax, e: Entry): string { e.key + " " + c.delimiter + " " + Lines(e.value)[0] }

  ghost predicate OneLine(s: string) { forall i :: 0 <= i < |s| ==> s[i] != '\n' }

  // A line of a value after the first: neither blank nor with anything that the reader takes
  // for a comment, a new key or the end
  ghost predicate Plain(c: Syntax, line: string) {
    OneLine(line) && Trim(line) != "" && !Contains(line, c.comment) && GoesOn(c, line)
  }

  ghost predicate AllPlain(c: Syntax, lines: seq<string>) { forall i :: 0 <= i < |lines| ==> Plain(c, lines[i]) }

  ghost predicate WfSyntax(c: Syntax) { c.delimiter != "" && OneLine(c.delimiter) && c.comment != "" }

  /** What a caller can check before saving: the key and the value are trimmed, the key is one
      line, the delimiter is not found earlier than it is written, there is no comment mark
      and no sentry, and the further lines of the value are plain. */
  ghost predicate WfEntry(c: Syntax, e: Entry) {
    && Trimmed(e.key) && Trimmed(e.value) && OneLine(e.key)
    && Find(e.key + " " + c.delimiter, c.delimiter) == |e.key| + 1
    && !Contains(FirstLine(c, e), c.comment) && !HasSentry(c, FirstLine(c, e))
    && AllPlain(c, Lines(e.value)[1..])
  }

  ghost predicate WfEntries(c: Syntax, entries: seq<Entry>) {
    forall i :: 0 <= i < |entries| ==> WfEntry(c, entries[i])
  }

  lemma NewlineAt(line: string, rest: string)
    requires OneLine(line)
    ensures Find(line + "\n" + rest, "\n") == |line|
  {
    var s := line + "\n" + rest;
    assert s[|line|..][..1] == "\n";
    forall j | 0 <= j < |line| ensures !IsPrefix("\n", s[j..]) {
      assert s[j..][0] == line[j];
    }
    FoundAt(s, "\n", |line|);
  }

  lemma GetOneLine(line: string, rest: string, before: string)
    requires OneLine(line)
    ensures GetLine(Open(line + "\n" + rest), before) == (Open(rest), line)
  {
    NewlineAt(line, rest);
    var s := line + "\n" + rest;
    assert s[..|line|] == line && s[|line| + 1..] == rest;
  }

  // The part of a string before its first newline, and the rest
  lemma AtNewline(s: string)
    ensures var i := Find(s, "\n");
            if i < 0 then OneLine(s) else OneLine(s[..i]) && s == s[..i] + ("\n" + s[i + 1..])
  {
    FindIs(s, "\n");
    var i := Find(s, "\n");
    if i < 0 {
      NoNewline(s, |s|);
      assert s[..|s|] == s;
    } else {
      NoNewline(s, i);
      HeadIs(s[i..]);
      assert s[i..][1..] == s[i + 1..];
      assert s == s[..i] + s[i..];
    }
  }

  lemma HeadIs(s: string)
    requires IsPrefix("\n", s)
    ensures s == "\n" + s[1..]
  {
  }

  lemma NoNewline(s: string, n: nat)
    requires n <= |s| && forall j :: 0 <= j < n ==> !IsPrefix("\n", s[j..])
    ensures OneLine(s[..n])
  {
    forall j | 0 <= j < n ensures s[..n][j] != '\n' {
      assert s[j..][..1] == [s[j]];
      assert !IsPrefix("\n", s[j..]);
    }
  }

  lemma LinesSplit(s: string)
    requires Find(s, "\n") >= 0
    ensures var i := Find(s, "\n");
            Lines(s)[0] == s[..i] && Lines(s)[1..] == Lines(s[i + 1..])
  {
    var i := Find(s, "\n");
    HeadAndTail(s[..i], Lines(s[i + 1..]));
  }

  lemma HeadAndTail(x: string, y: seq<string>)
    ensures ([x] + y)[0] == x && ([x] + y)[1..] == y
  {
  }

  lemma {:induction false} LinesAreOneLine(s: string)
    ensures forall i :: 0 <= i < |Lines(s)| ==> OneLine(Lines(s)[i])
    decreases |s|
  {
    AtNewline(s);
    if Find(s, "\n") >= 0 {
      LinesAreOneLine(s[Find(s, "\n") + 1..]);
    }
  }

  /** A string is its lines with newlines between them. */
  lemma {:induction false} LinesJoin(s: string)
    ensures s == Lines(s)[0] + More(Lines(s)[1..])
    decreases |s|
  {
    AtNewline(s);
    var i := Find(s, "\n");
    if i >= 0 {
      LinesSplit(s);
      LinesJoin(s[i + 1..]);
      var rest := Lines(s[i + 1..]);
      assert More(rest) == ("\n" + rest[0]) + More(rest[1..]);
      Assoc("\n", rest[0], More(rest[1..]));
    }
  }

  lemma {:induction false} LinesTextIs(lines: seq<string>)
    requires lines != []
    ensures LinesText(lines) == (lines[0] + More(lines[1..])) + "\n"
    decreases |lines|
  {
    if |lines| == 1 {
      assert lines[1..] == [];
    } else {
      var rest := lines[1..];
      LinesTextIs(rest);
      assert More(rest) == ("\n" + rest[0]) + More(rest[1..]);
      Assoc("\n", rest[0], More(rest[1..]));
      Assoc(lines[0], "\n", (rest[0] + More(rest[1..])) + "\n");
      Assoc("\n", rest[0] + More(rest[1..]), "\n");
      Assoc(lines[0], "\n" + (rest[0] + More(rest[1..])), "\n");
    }
  }

  // ---------------------------------------------------------------------------
  // Reading what was written
  // ---------------------------------------------------------------------------

  // While the stream is good the line that was read ahead does not matter
  lemma AnyNext(c: Syntax, text: string, value: string, y: string, z: string)
    ensures ReadOn(c, Open(text), value, y) == ReadOn(c, Open(text), value, z)
  {
  }

  lemma PlainIs(c: Syntax, line: string)
    requires Plain(c, line)
    ensures Uncomment(c, line) == line && GoesOn(c, line) && Extend("", line) == "\n" + line
  {
  }

  lemma ReadPlain(c: Syntax, line: string, rest: string, value: string, y: string)
    requires Plain(c, line)
    ensures ReadOn(c, Open(line + "\n" + rest), value, y) == ReadOn(c, Open(rest), value + ("\n" + line), "")
  {
    GetOneLine(line, rest, y);
    PlainIs(c, line);
    assert Extend(value, line) == value + ("\n" + line);
    AnyNext(c, rest, Extend(value, line), line, "");
  }

  lemma {:induction false} ReadLines(c: Syntax, lines: seq<string>, rest: string, value: string)
    requires AllPlain(c, lines)
    ensures ReadOn(c, Open(LinesText(lines) + rest), value, "") == ReadOn(c, Open(rest), value + More(lines), "")
    decreases |lines|
  {
    hide ReadOn, Plain;
    if lines == [] {
      assert LinesText(lines) + rest == rest && value + More(lines) == value;
    } else {
      assert Plain(c, lines[0]);
      Assoc(lines[0] + "\n", LinesText(lines[1..]), rest);
      ReadPlain(c, lines[0], LinesText(lines[1..]) + rest, value, "");
      ReadLines(c, lines[1..], rest, value + ("\n" + lines[0]));
      Assoc(value, "\n" + lines[0], More(lines[1..]));
    }
  }

  lemma ReadToEnd(c: Syntax, value: string)
    ensures ReadOn(c, Open(""), value, "") == (Stream("", true, true), value, "")
  {
  }

  lemma ReadToEntry(c: Syntax, line: string, rest: string, value: string)
    requires OneLine(line) && !Contains(line, c.comment) && Contains(line, c.delimiter)
    ensures ReadOn(c, Open(line + "\n" + rest), value, "") == (Open(rest), value, line)
  {
    GetOneLine(line, rest, "");
    assert Uncomment(c, line) == line;
  }

  // The delimiter is found where it was written, whatever comes after it
  lemma DelimiterAt(key: string, delimiter: string, rest: string)
    requires Find(key + " " + delimiter, delimiter) == |key| + 1
    ensures Find(key + " " + delimiter + rest, delimiter) == |key| + 1
  {
    var start, at := key + " " + delimiter, |key| + 1;
    var line := start + rest;
    FindIs(start, delimiter);
    assert line[at..][..|delimiter|] == delimiter;
    forall j | 0 <= j < at ensures !IsPrefix(delimiter, line[j..]) {
      SamePrefix(start, rest, j, delimiter);
    }
    FoundAt(line, delimiter, at);
  }

  lemma SamePrefix(start: string, rest: string, j: nat, p: string)
    requires j + |p| <= |start|
    ensures IsPrefix(p, (start + rest)[j..]) <==> IsPrefix(p, start[j..])
  {
    assert (start + rest)[j..][..|p|] == start[j..][..|p|];
  }

  lemma OneLineParts(x: string, y: string)
    requires OneLine(x) && OneLine(y)
    ensures OneLine(x + " " + y)
  {
  }

  lemma FirstLineIs(c: Syntax, e: Entry)
    requires WfSyntax(c) && WfEntry(c, e)
    ensures var line := FirstLine(c, e);
            && OneLine(line) && line != "" && Uncomment(c, line) == line && !HasSentry(c, line)
            && Find(line, c.delimiter) == |e.key| + 1
            && line[..|e.key| + 1] == e.key + " "
            && line[|e.key| + 1 + |c.delimiter|..] == " " + Lines(e.value)[0]
            && Contains(line, c.delimiter)
  {
    hide Find, Lines, Trimmed, AllPlain, OneLine;
    var first := Lines(e.value)[0];
    LinesAreOneLine(e.value);
    OneLineParts(e.key, c.delimiter);
    OneLineParts(e.key + " " + c.delimiter, first);
    Assoc(e.key + " " + c.delimiter, " ", first);
    DelimiterAt(e.key, c.delimiter, " " + first);
    LineParts(e.key, c.delimiter, first);
  }

  lemma LineParts(key: string, delimiter: string, first: string)
    ensures var line := key + " " + delimiter + " " + first;
            && line != ""
            && line[..|key| + 1] == key + " "
            && line[|key| + 1 + |delimiter|..] == " " + first
  {
  }

  lemma EntryTextIs(c: Syntax, e: Entry)
    ensures EntryText(c, e) == FirstLine(c, e) + "\n" + LinesText(Lines(e.value)[1..])
  {
    var lines := Lines(e.value);
    LinesJoin(e.value);
    LinesTextIs(lines);
    var start := e.key + " " + c.delimiter + " ";
    Assoc(start, e.value, "\n");
    assert LinesText(lines) == lines[0] + "\n" + LinesText(lines[1..]);
    Assoc(lines[0], "\n", LinesText(lines[1..]));
    Assoc(start, lines[0], "\n" + LinesText(lines[1..]));
    Assoc(FirstLine(c, e), "\n", LinesText(lines[1..]));
  }

  // The text behind the first line of the first entry
  function Behind(c: Syntax, entries: seq<Entry>): string
    requires entries != []
  {
    LinesText(Lines(entries[0].value)[1..]) + Text(c, entries[1..])
  }

  lemma TextIs(c: Syntax, entries: seq<Entry>)
    requires entries != []
    ensures Text(c, entries) == FirstLine(c, entries[0]) + "\n" + Behind(c, entries)
  {
    EntryTextIs(c, entries[0]);
    Assoc(FirstLine(c, entries[0]) + "\n", LinesText(Lines(entries[0].value)[1..]), Text(c, entries[1..]));
  }

  // What the inner loop does after the first line of an entry
  lemma ReadValue(c: Syntax, entries: seq<Entry>)
    requires WfSyntax(c) && WfEntries(c, entries) && entries != []
    ensures var v := " " + Lines(entries[0].value)[0];
            var r := ReadOn(c, Open(Behind(c, entries)), v, "");
            && r.1 == " " + entries[0].value
            && (if entries[1..] == [] then r.0 == Stream("", true, true) && r.2 == ""
                else r.0 == Open(Behind(c, entries[1..])) && r.2 == FirstLine(c, entries[1]))
  {
    hide ReadOn, WfEntry;
    var lines := Lines(entries[0].value);
    WfParts(c, entries[0]);
    ReadLines(c, lines[1..], Text(c, entries[1..]), " " + lines[0]);
    LinesJoin(entries[0].value);
    Assoc(" ", lines[0], More(lines[1..]));
    if entries[1..] == [] {
      ReadToEnd(c, " " + entries[0].value);
    } else {
      assert WfEntry(c, entries[1]);
      FirstLineIs(c, entries[1]);
      WfParts(c, entries[1]);
      TextIs(c, entries[1..]);
      ReadToEntry(c, FirstLine(c, entries[1]), Behind(c, entries[1..]), " " + entries[0].value);
    }
  }

  lemma WfParts(c: Syntax, e: Entry)
    requires WfEntry(c, e)
    ensures AllPlain(c, Lines(e.value)[1..]) && !Contains(FirstLine(c, e), c.comment)
    ensures Trimmed(e.key) && Trimmed(e.value)
  {
  }

  // The outer loop, with the first line of the next entry already read
  lemma {:induction false} ReadEntries(c: Syntax, entries: seq<Entry>, contents: map<string, string>)
    requires WfSyntax(c) && WfEntries(c, entries) && entries != []
    ensures ReadAll(c, Open(Behind(c, entries)), FirstLine(c, entries[0]), contents) == Store(contents, entries)
    decreases |entries|
  {
    hide ReadOn, WfEntry, FirstLine, Behind, HasSentry, Uncomment, Trim;
    var e := entries[0];
    assert WfEntry(c, e);
    FirstLineIs(c, e);
    WfParts(c, e);
    ReadValue(c, entries);
    TrimSpaces(e.key);
    TrimSpaces(e.value);
    if entries[1..] != [] {
      ReadEntries(c, entries[1..], contents[e.key := e.value]);
    }
  }

  /** Reading what was written gives the entries back, in their order and over whatever was
      there before: for every syntax with a delimiter and a comment mark, and every list of
      entries that pass the check, multi-line values included. */
  lemma RoundTrip(c: Syntax, entries: seq<Entry>, contents: map<string, string>)
    requires WfSyntax(c) && WfEntries(c, entries)
    ensures ReadAll(c, Open(Text(c, entries)), "", contents) == Store(contents, entries)
  {
    hide ReadAll, WfEntry, FirstLine, Behind, HasSentry, Uncomment, Find;
    if entries == [] {
      ReadNothing(c, contents);
    } else {
      assert WfEntry(c, entries[0]);
      FirstLineIs(c, entries[0]);
      TextIs(c, entries);
      ReadFirst(c, FirstLine(c, entries[0]), Behind(c, entries), contents);
      ReadEntries(c, entries, contents);
    }
  }

  // Reading a first line is the same as having read it ahead
  lemma ReadFirst(c: Syntax, line: string, rest: string, contents: map<string, string>)
    requires OneLine(line) && line != ""
    ensures ReadAll(c, Open(line + "\n" + rest), "", contents) == ReadAll(c, Open(rest), line, contents)
  {
    hide ReadOn, HasSentry, Uncomment, Trim, Find;
    GetOneLine(line, rest, "");
  }

  lemma ReadNothing(c: Syntax, contents: map<string, string>)
    requires WfSyntax(c)
    ensures ReadAll(c, Open(""), "", contents) == contents
  {
    assert Uncomment(c, "") == "" && !HasSentry(c, "") && Find("", c.delimiter) < 0;
  }

  // The entries of a map, in some order of its keys
  function EntriesOf(contents: map<string, string>, keys: seq<string>): (entries: seq<Entry>)
    requires forall i :: 0 <= i < |keys| ==> keys[i] in contents
    ensures |entries| == |keys| && forall i :: 0 <= i < |keys| ==> entries[i] == Entry(keys[i], contents[keys[i]])
  {
    seq(|keys|, i requires 0 <= i < |keys| => Entry(keys[i], contents[keys[i]]))
  }

  lemma {:induction false} StoreIs(before: map<string, string>, contents: map<string, string>, keys: seq<string>,
      k: string)
    requires forall i :: 0 <= i < |keys| ==> keys[i] in contents
    ensures var after := Store(before, EntriesOf(contents, keys));
            && (k in after <==> k in before || k in keys)
            && (k in after ==> after[k] == if k in keys then contents[k] else before[k])
    decreases |keys|
  {
    if keys != [] {
      StoreIs(before[keys[0] := contents[keys[0]]], contents, keys[1..], k);
      assert EntriesOf(contents, keys)[1..] == EntriesOf(contents, keys[1..]);
      assert k in keys <==> k == keys[0] || k in keys[1..];
    }
  }

  /** So a map whose entries all pass the check survives saving and loading unchanged,
      whatever order it is written in. */
  lemma MapRoundTrip(c: Syntax, contents: map<string, string>, keys: seq<string>)
    requires WfSyntax(c) && (forall k :: k in keys <==> k in contents)
    requires WfEntries(c, EntriesOf(contents, keys))
    ensures ReadAll(c, Open(Text(c, EntriesOf(contents, keys))), "", map[]) == contents
  {
    hide WfEntries, ReadAll, Text, Store;
    RoundTrip(c, EntriesOf(contents, keys), map[]);
    forall k {
      StoreIs(map[], contents, keys, k);
    }
  }

  lemma NotBlank(line: string)
    requires Trim(line) != ""
    ensures line != ""
  {
  }

  lemma {:induction false} NoNewlineFound(line: string)
    requires OneLine(line)
    ensures Find(line, "\n") < 0
    decreases |line|
  {
    if line != "" {
      assert line[..1] == [line[0]];
      NoNewlineFound(line[1..]);
    }
  }

  /** Without a final newline it is different: when the value goes on to the very end of the
      text, its last line is taken twice, because a failing getline() leaves the line alone. */
  lemma LastLineTwice(c: Syntax, line: string, value: string)
    requires Plain(c, line)
    ensures ReadOn(c, Open(line), value, "") ==
              (Stream("", true, true), value + ("\n" + line) + ("\n" + line), line)
  {
    PlainIs(c, line);
    NotBlank(line);
    NoNewlineFound(line);
    var v1 := value + ("\n" + line);
    assert Extend(value, line) == v1 && Extend(v1, line) == v1 + ("\n" + line);
    var ended := Stream("", true, false);
    assert GetLine(Open(line), "") == (ended, line);
    assert GetLine(ended, line) == (Stream("", true, true), line);
    assert ReadOn(c, ended, v1, line) == (Stream("", true, true), v1 + ("\n" + line), line);
  }

  lemma ReadOnFailed(c: Syntax, s: Stream, value: string, nextLine: string)
    ensures s.fail ==> ReadOn(c, s, value, nextLine) == (s, value, nextLine)
  {
  }

  // One turn of the inner loop
  lemma ReadOnStep(c: Syntax, s: Stream, value: string, nextLine: string)
    requires !s.fail
    ensures var (s1, next) := GetLine(s, nextLine);
            var cut := Uncomment(c, next);
            ReadOn(c, s, value, nextLine) ==
              if Trim(next) == "" then (s1, value, next)
              else if GoesOn(c, cut) then ReadOn(c, s1, Extend(value, cut), cut)
              else (s1, value, cut)
  {
  }

  lemma ReadAllDone(c: Syntax, s: Stream, contents: map<string, string>)
    requires s.fail
    ensures ReadAll(c, s, "", contents) == contents
  {
  }

  // One turn of the outer loop
  lemma ReadAllStep(c: Syntax, s: Stream, nextLine: string, contents: map<string, string>)
    requires !s.fail || nextLine != ""
    ensures var (s1, whole) := if nextLine != "" then (s, nextLine) else GetLine(s, "");
            var line := Uncomment(c, whole);
            var p := Find(line, c.delimiter);
            ReadAll(c, s, nextLine, contents) ==
              if HasSentry(c, line) then contents
              else if p < 0 then ReadAll(c, s1, "", contents)
              else
                var (s2, value, next) := ReadOn(c, s1, line[p + |c.delimiter|..], "");
                ReadAll(c, s2, next, contents[Trim(line[..p]) := Trim(value)])
  {
    hide ReadOn, HasSentry, Uncomment, Trim, GetLine;
  }

  lemma ReadOnLeft(c: Syntax, s: Stream, value: string)
    ensures var r := ReadOn(c, s, value, "");
            && Left(r.0) <= Left(s) && (!s.fail ==> Left(r.0) < Left(s)) && (s.fail ==> r.2 == "")
  {
  }

  // ---------------------------------------------------------------------------
  // The object
  // ---------------------------------------------------------------------------

  class ConfigFile {
    const syntax: Syntax
    var contents: map<string, string>

    constructor (syntax: Syntax)
      ensures this.syntax == syntax && contents == map[]
    {
      this.syntax := syntax;
      contents := map[];
    }

    // operator<<: one key after the other, in the order of the map
    method Save(keys: seq<string>) returns (text: string)
      requires forall k :: k in keys <==> k in contents
      ensures text == Text(syntax, EntriesOf(contents, keys))
    {
      ghost var entries := EntriesOf(contents, keys);
      text := "";
      assert entries[0..] == entries && text + Text(syntax, entries) == Text(syntax, entries);
      for i := 0 to |keys|
        invariant text + Text(syntax, entries[i..]) == Text(syntax, entries)
      {
        ghost var before := text;
        text := text + (keys[i] + " " + syntax.delimiter + " " + contents[keys[i]] + "\n");
        assert entries[i..][0] == entries[i] && entries[i..][1..] == entries[i + 1..];
        assert text == before + EntryText(syntax, entries[i]);
        assert Text(syntax, entries[i..]) == EntryText(syntax, entries[i]) + Text(syntax, entries[i + 1..]);
        Assoc(before, EntryText(syntax, entries[i]), Text(syntax, entries[i + 1..]));
      }
      assert entries[|keys|..] == [] && text + "" == text;
    }

    // The inner loop of operator>>
    method ReadValue(s: Stream, value: string) returns (s': Stream, value': string, nextLine: string)
      ensures (s', value', nextLine) == ReadOn(syntax, s, value, "")
    {
      hide ReadOn, TrimLeft, TrimRight;
      s', value', nextLine := s, value, "";
      var terminate := false;
      while !terminate && !s'.fail
        invariant if terminate then (s', value', nextLine) == ReadOn(syntax, s, value, "")
                  else ReadOn(syntax, s', value', nextLine) == ReadOn(syntax, s, value, "")
        decreases !terminate, Left(s')
      {
        ReadOnStep(syntax, s', value', nextLine);
        var (rest, next) := GetLine(s', nextLine);
        s', nextLine := rest, next;
        terminate := true;
        if Trim(nextLine) == "" {
          continue;
        }
        nextLine := Uncomment(syntax, nextLine);
        if Contains(nextLine, syntax.delimiter) {
          continue;
        }
        if syntax.sentry != "" && Contains(nextLine, syntax.sentry) {
          continue;
        }
        assert value' + "" == value';
        if Trim(nextLine) != "" {
          value' := value' + "\n";
        }
        value' := value' + nextLine;
        terminate := false;
      }
      ReadOnFailed(syntax, s', value', nextLine);
    }

    // operator>>
    method Load(text: string)
      modifies this`contents
      ensures contents == ReadAll(syntax, Open(text), "", old(contents))
    {
      hide ReadAll, ReadOn, TrimLeft, TrimRight;
      var s, nextLine := Open(text), "";
      while !s.fail || nextLine != ""
        invariant ReadAll(syntax, s, nextLine, contents) == ReadAll(syntax, Open(text), "", old(contents))
        decreases Left(s), |nextLine|
      {
        ReadAllStep(syntax, s, nextLine, contents);
        var line;
        if nextLine != "" {
          line, nextLine := nextLine, "";
        } else {
          var (rest, next) := GetLine(s, "");
          s, line := rest, next;
        }
        line := Uncomment(syntax, line);
        if syntax.sentry != "" && Contains(line, syntax.sentry) {
          return;
        }
        var p := Find(line, syntax.delimiter);
        if p >= 0 {
          var key, value := line[..p], line[p + |syntax.delimiter|..];
          ReadOnLeft(syntax, s, value);
          s, value, nextLine := ReadValue(s, value);
          contents := contents[Trim(key) := Trim(value)];
        }
      }
      ReadAllDone(syntax, s, contents);
    }

    /** Loading what was saved into an empty configuration gives the same contents. */
    method Copy(keys: seq<string>) returns (copy: ConfigFile)
      requires WfSyntax(syntax) && (forall k :: k in keys <==> k in contents)
      requires WfEntries(syntax, EntriesOf(contents, keys))
      ensures fresh(copy) && copy.syntax == syntax && copy.contents == contents
    {
      var text := Save(keys);
      copy := new ConfigFile(syntax);
      copy.Load(text);
      MapRoundTrip(syntax, contents, keys);
    }
  }
}
