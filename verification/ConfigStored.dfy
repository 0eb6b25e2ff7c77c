/** What the reader of a configuration file can store at all: only entries that survive being
    written again.  With it the round trip of `ConfigFiles` becomes an equivalence. */
module ConfigStored {
  import opened ConfigFiles
  import opened Sequences

  // ---------------------------------------------------------------------------
  // Patterns in strings
  // ---------------------------------------------------------------------------

  predicate HasAt(s: string, p: string, j: int) { 0 <= j && j + |p| <= |s| && s[j..j + |p|] == p }

  ghost predicate SpaceFree(p: string) { forall i :: 0 <= i < |p| ==> !IsSpace(p[i]) }

  ghost predicate Blank(s: string) { forall i :: 0 <= i < |s| ==> IsSpace(s[i]) }

  lemma FirstIs(s: string, p: string)
    ensures Find(s, p) >= 0 ==> HasAt(s, p, Find(s, p))
    ensures forall j :: HasAt(s, p, j) ==> 0 <= Find(s, p) <= j
  {
    FindIs(s, p);
    forall j | HasAt(s, p, j) ensures 0 <= Find(s, p) <= j {
      assert s[j..][..|p|] == s[j..j + |p|];
    }
    var i := Find(s, p);
    if i >= 0 {
      assert s[i..][..|p|] == s[i..i + |p|];
    }
  }

  lemma HasInPart(x: string, y: string, z: string, p: string, j: int)
    requires HasAt(y, p, j)
    ensures HasAt(x + y + z, p, |x| + j)
  {
    var s := x + y + z;
    assert s[|x| + j..|x| + j + |p|] == y[j..j + |p|];
  }

  // A pattern without spaces lies on one side of a space
  lemma HasBesideSpace(x: string, ch: char, y: string, p: string, j: int)
    requires SpaceFree(p) && p != "" && IsSpace(ch) && HasAt(x + [ch] + y, p, j)
    ensures HasAt(x, p, j) || HasAt(y, p, j - |x| - 1)
  {
    var s := x + [ch] + y;
    NoSpaceInside(s, p, j);
    assert s[|x|] == ch;
    if j + |p| <= |x| {
      assert x[j..j + |p|] == s[j..j + |p|];
    } else {
      assert y[j - |x| - 1..j - |x| - 1 + |p|] == s[j..j + |p|];
    }
  }

  lemma NoSpaceInside(s: string, p: string, j: int)
    requires SpaceFree(p) && HasAt(s, p, j)
    ensures forall i :: j <= i < j + |p| ==> !IsSpace(s[i])
  {
    assert forall i :: j <= i < j + |p| ==> s[i] == s[j..j + |p|][i - j];
  }

  lemma NotInPart(x: string, y: string, z: string, p: string)
    requires !Contains(x + y + z, p)
    ensures !Contains(y, p)
  {
    FirstIs(x + y + z, p);
    FirstIs(y, p);
    if Contains(y, p) { HasInPart(x, y, z, p, Find(y, p)); }
  }

  lemma NotBesideSpace(x: string, ch: char, y: string, p: string)
    requires SpaceFree(p) && p != "" && IsSpace(ch) && !Contains(x, p) && !Contains(y, p)
    ensures !Contains(x + [ch] + y, p)
  {
    var s := x + [ch] + y;
    FirstIs(s, p);
    FirstIs(x, p);
    FirstIs(y, p);
    if Contains(s, p) { HasBesideSpace(x, ch, y, p, Find(s, p)); }
  }

  // ---------------------------------------------------------------------------
  // Trimming
  // ---------------------------------------------------------------------------

  lemma {:induction false} TrimLeftIs(s: string) returns (x: string)
    ensures s == x + TrimLeft(s) && Blank(x)
    ensures TrimLeft(s) != "" ==> !IsSpace(TrimLeft(s)[0])
    decreases |s|
  {
    if s != "" && IsSpace(s[0]) {
      x := TrimLeftIs(s[1..]);
      x := [s[0]] + x;
      assert s == [s[0]] + s[1..];
    } else {
      x := "";
    }
  }

  lemma {:induction false} TrimRightIs(s: string) returns (z: string)
    ensures s == TrimRight(s) + z && Blank(z)
    ensures TrimRight(s) != "" ==> !IsSpace(TrimRight(s)[|TrimRight(s)| - 1])
    decreases |s|
  {
    if s != "" && IsSpace(s[|s| - 1]) {
      z := TrimRightIs(s[..|s| - 1]);
      z := z + [s[|s| - 1]];
      assert s == s[..|s| - 1] + [s[|s| - 1]];
    } else {
      z := "";
    }
  }

  // Trimming takes blanks off both ends, and nothing else
  lemma TrimIs(s: string) returns (x: string, z: string)
    ensures s == x + Trim(s) + z && Blank(x) && Blank(z) && Trimmed(Trim(s))
    ensures Trim(s) == "" <==> Blank(s)
  {
    x := TrimLeftIs(s);
    z := TrimRightIs(TrimLeft(s));
    var t := Trim(s);
    if t != "" {
      assert TrimLeft(s)[0] == t[0];
      assert s[|x|] == t[0];
    }
  }

  // ---------------------------------------------------------------------------
  // The lines of a value
  // ---------------------------------------------------------------------------

  lemma LinesOfOne(line: string)
    requires OneLine(line)
    ensures Lines(line) == [line]
  {
    NoNewlineFound(line);
  }

  lemma LinesOfMore(line: string, rest: string)
    requires OneLine(line)
    ensures Lines(line + "\n" + rest) == [line] + Lines(rest)
  {
    NewlineAt(line, rest);
    var t := line + "\n" + rest;
    assert t[..|line|] == line && t[|line| + 1..] == rest;
  }

  // A string is one line, or a line and more
  lemma FirstLineOf(s: string) returns (line: string, rest: string, one: bool)
    ensures OneLine(line) && (one ==> s == line) && (!one ==> s == line + "\n" + rest && |rest| < |s|)
  {
    AtNewline(s);
    var i := Find(s, "\n");
    one := i < 0;
    line := if one then s else s[..i];
    rest := if one then "" else s[i + 1..];
  }

  lemma {:induction false} LinesOfAppend(s: string, line: string)
    requires OneLine(line)
    ensures Lines(s + "\n" + line) == Lines(s) + [line]
    decreases |s|
  {
    hide Lines, OneLine;
    var first, rest, one := FirstLineOf(s);
    if one {
      LinesOfMore(s, line);
      LinesOfOne(s);
      LinesOfOne(line);
    } else {
      assert s + "\n" + line == first + "\n" + (rest + "\n" + line);
      LinesOfMore(first, rest + "\n" + line);
      LinesOfMore(first, rest);
      LinesOfAppend(rest, line);
    }
  }

  // A character other than a newline extends the last line
  lemma {:induction false} LinesOfPush(s: string, ch: char)
    requires ch != '\n'
    ensures Lines(s + [ch]) == LastExtended(Lines(s), ch)
    decreases |s|
  {
    hide Lines;
    var first, rest, one := FirstLineOf(s);
    if one {
      LinesOfOne(s);
      LinesOfOne(s + [ch]);
    } else {
      assert s + [ch] == first + "\n" + (rest + [ch]);
      LinesOfMore(first, rest + [ch]);
      LinesOfMore(first, rest);
      LinesOfPush(rest, ch);
      LastOfMore(first, Lines(rest), ch);
    }
  }

  function LastExtended(lines: seq<string>, ch: char): seq<string>
    requires lines != []
  {
    lines[..|lines| - 1] + [lines[|lines| - 1] + [ch]]
  }

  lemma LastOfMore(line: string, lines: seq<string>, ch: char)
    requires lines != []
    ensures LastExtended([line] + lines, ch) == [line] + LastExtended(lines, ch)
  {
  }

  lemma LinesOfPushFront(ch: char, s: string)
    requires ch != '\n'
    ensures Lines([ch] + s) == [[ch] + Lines(s)[0]] + Lines(s)[1..]
  {
    hide Lines;
    var first, rest, one := FirstLineOf(s);
    if one {
      LinesOfOne(s);
      LinesOfOne([ch] + s);
    } else {
      assert [ch] + s == ([ch] + first) + "\n" + rest;
      LinesOfMore([ch] + first, rest);
      LinesOfMore(first, rest);
    }
  }

  lemma LinesOfNewlineFront(s: string)
    ensures Lines("\n" + s) == [""] + Lines(s)
  {
    LinesOfMore("", s);
    assert "" + "\n" + s == "\n" + s;
  }

  // ---------------------------------------------------------------------------
  // Clean lines
  // ---------------------------------------------------------------------------

  /** The usual syntaxes: no spaces in the delimiter, the comment mark and the sentry. */
  ghost predicate SolidSyntax(c: Syntax) {
    WfSyntax(c) && SpaceFree(c.delimiter) && SpaceFree(c.comment) && SpaceFree(c.sentry)
  }

  ghost predicate Clean(c: Syntax, line: string) { !Contains(line, c.comment) && !HasSentry(c, line) }

  lemma CleanPart(c: Syntax, x: string, y: string, z: string)
    requires Clean(c, x + y + z)
    ensures Clean(c, y)
  {
    NotInPart(x, y, z, c.comment);
    if c.sentry != "" { NotInPart(x, y, z, c.sentry); }
  }

  lemma CleanBesideSpace(c: Syntax, x: string, ch: char, y: string)
    requires SolidSyntax(c) && IsSpace(ch) && Clean(c, x) && Clean(c, y)
    ensures Clean(c, x + [ch] + y)
  {
    NotBesideSpace(x, ch, y, c.comment);
    if c.sentry != "" { NotBesideSpace(x, ch, y, c.sentry); }
  }

  lemma NothingIsClean(c: Syntax)
    requires WfSyntax(c)
    ensures Clean(c, "") && !Contains("", c.delimiter)
  {
  }

  lemma BlankIs(s: string)
    ensures Trim(s) == "" <==> Blank(s)
  {
    var _, _ := TrimIs(s);
  }

  // A space more or less at the end of a plain line
  lemma PlainSpace(c: Syntax, line: string, ch: char)
    requires SolidSyntax(c) && IsSpace(ch) && ch != '\n'
    ensures Plain(c, line + [ch]) <==> Plain(c, line)
  {
    var t := line + [ch];
    BlankIs(line);
    BlankIs(t);
    assert Blank(t) <==> Blank(line) by {
      if Blank(t) { assert forall i :: 0 <= i < |line| ==> line[i] == t[i]; }
    }
    assert OneLine(t) <==> OneLine(line) by {
      if OneLine(t) { assert forall i :: 0 <= i < |line| ==> line[i] == t[i]; }
    }
    NothingIsClean(c);
    assert t == "" + line + [ch] && t == line + [ch] + "";
    if Plain(c, t) {
      CleanPart(c, "", line, [ch]);
      NotInPart("", line, [ch], c.delimiter);
    }
    if Plain(c, line) {
      CleanBesideSpace(c, line, ch, "");
      NotBesideSpace(line, ch, "", c.delimiter);
    }
  }

  lemma CleanSpace(c: Syntax, line: string, ch: char)
    requires SolidSyntax(c) && IsSpace(ch)
    ensures Clean(c, line + [ch]) <==> Clean(c, line)
  {
    NothingIsClean(c);
    assert line + [ch] == "" + line + [ch] && line + [ch] == line + [ch] + "";
    if Clean(c, line + [ch]) { CleanPart(c, "", line, [ch]); }
    if Clean(c, line) { CleanBesideSpace(c, line, ch, ""); }
  }

  // ---------------------------------------------------------------------------
  // The value while it is read
  // ---------------------------------------------------------------------------

  ghost predicate LinesOk(c: Syntax, lines: seq<string>)
    requires lines != []
  {
    Clean(c, lines[0]) && forall i :: 1 <= i < |lines| ==> Plain(c, lines[i])
  }

  ghost predicate ValueOk(c: Syntax, value: string) { LinesOk(c, Lines(value)) }

  lemma PushSpace(c: Syntax, value: string, ch: char)
    requires SolidSyntax(c) && IsSpace(ch) && ch != '\n'
    ensures ValueOk(c, value + [ch]) <==> ValueOk(c, value)
  {
    hide Plain, Clean, Lines;
    var ls, n := Lines(value), |Lines(value)| - 1;
    LinesOfPush(value, ch);
    CleanSpace(c, ls[n], ch);
    PlainSpace(c, ls[n], ch);
    var ls' := Lines(value + [ch]);
    assert |ls'| == |ls| && ls'[n] == ls[n] + [ch] && forall i :: 0 <= i < n ==> ls'[i] == ls[i];
  }

  // A value never ends with an empty line
  lemma NoEmptyEnd(c: Syntax, value: string)
    ensures !ValueOk(c, value + "\n")
  {
    LinesOfAppend(value, "");
    assert value + "\n" + "" == value + "\n";
    var ls := Lines(value + "\n");
    assert ls[|ls| - 1] == "" && !Plain(c, ls[|ls| - 1]);
  }

  lemma PopFront(c: Syntax, ch: char, value: string)
    requires SolidSyntax(c) && IsSpace(ch) && ValueOk(c, [ch] + value)
    ensures ValueOk(c, value)
  {
    hide Lines;
    if ch == '\n' {
      LinesOfNewlineFront(value);
      assert forall i :: 0 <= i < |Lines(value)| ==> Lines(value)[i] == Lines("\n" + value)[i + 1];
    } else {
      LinesOfPushFront(ch, value);
      var ls := Lines(value);
      assert forall i :: 1 <= i < |ls| ==> ls[i] == Lines([ch] + value)[i];
      assert [ch] + ls[0] == [ch] + ls[0] + "";
      CleanPart(c, [ch], ls[0], "");
    }
  }

  lemma {:induction false} TrimLeftOk(c: Syntax, value: string)
    requires SolidSyntax(c) && ValueOk(c, value)
    ensures ValueOk(c, TrimLeft(value))
    decreases |value|
  {
    hide ValueOk, SolidSyntax;
    if value != "" && IsSpace(value[0]) {
      assert value == [value[0]] + value[1..];
      PopFront(c, value[0], value[1..]);
      TrimLeftOk(c, value[1..]);
    }
  }

  lemma {:induction false} TrimRightOk(c: Syntax, value: string)
    requires SolidSyntax(c) && ValueOk(c, value)
    ensures ValueOk(c, TrimRight(value))
    decreases |value|
  {
    hide ValueOk, SolidSyntax;
    if value != "" && IsSpace(value[|value| - 1]) {
      var init, ch := value[..|value| - 1], value[|value| - 1];
      assert value == init + [ch];
      NoEmptyEnd(c, init);
      PushSpace(c, init, ch);
      TrimRightOk(c, init);
    }
  }

  // A comment that is cut off leaves spaces behind
  lemma {:induction false} PushBlank(c: Syntax, value: string, cut: string)
    requires SolidSyntax(c) && ValueOk(c, value) && Blank(cut) && OneLine(cut)
    ensures ValueOk(c, value + cut)
    decreases |cut|
  {
    hide ValueOk, SolidSyntax;
    if cut == "" {
      assert value + cut == value;
    } else {
      var init, ch := cut[..|cut| - 1], cut[|cut| - 1];
      PushBlank(c, value, init);
      PushSpace(c, value + init, ch);
      assert value + cut == (value + init) + [ch];
    }
  }

  lemma ExtendOk(c: Syntax, value: string, cut: string)
    requires SolidSyntax(c) && ValueOk(c, value) && OneLine(cut) && !Contains(cut, c.comment) && GoesOn(c, cut)
    ensures ValueOk(c, Extend(value, cut))
  {
    BlankIs(cut);
    if Trim(cut) == "" {
      assert Extend(value, cut) == value + cut;
      PushBlank(c, value, cut);
    } else {
      LinesOfAppend(value, cut);
      var ls := Lines(Extend(value, cut));
      assert forall i :: 0 <= i < |ls| - 1 ==> ls[i] == Lines(value)[i];
    }
  }

  lemma UncommentIs(c: Syntax, line: string)
    requires WfSyntax(c) && OneLine(line)
    ensures OneLine(Uncomment(c, line)) && !Contains(Uncomment(c, line), c.comment)
  {
    var cut := Uncomment(c, line);
    FirstIs(line, c.comment);
    FirstIs(cut, c.comment);
    if Contains(cut, c.comment) {
      assert line == "" + cut + line[|cut|..];
      HasInPart("", cut, line[|cut|..], c.comment, Find(cut, c.comment));
    }
  }

  lemma GetLineIs(s: Stream, line: string)
    requires OneLine(line)
    ensures OneLine(GetLine(s, line).1)
  {
    AtNewline(s.text);
  }

  // The inner loop keeps the value clean
  lemma {:induction false} ReadOnOk(c: Syntax, s: Stream, value: string, nextLine: string)
    requires SolidSyntax(c) && ValueOk(c, value) && OneLine(nextLine)
    ensures var (_, v, next) := ReadOn(c, s, value, nextLine); ValueOk(c, v) && OneLine(next)
    decreases Left(s)
  {
    hide ValueOk, SpaceFree, Uncomment, GoesOn, Extend, Trim, OneLine;
    if !s.fail {
      var (s1, next) := GetLine(s, nextLine);
      var cut := Uncomment(c, next);
      GetLineIs(s, nextLine);
      UncommentIs(c, next);
      ReadOnStep(c, s, value, nextLine);
      if Trim(next) != "" && GoesOn(c, cut) {
        ExtendOk(c, value, cut);
        ReadOnOk(c, s1, Extend(value, cut), cut);
      }
    }
  }

  // ---------------------------------------------------------------------------
  // The stored entries
  // ---------------------------------------------------------------------------

  lemma DelimiterParts(line: string, d: string)
    requires Find(line, d) >= 0
    ensures var p := Find(line, d); line == line[..p] + d + line[p + |d|..]
  {
    FirstIs(line, d);
    var p := Find(line, d);
    assert line == line[..p] + line[p..p + |d|] + line[p + |d|..];
  }

  // The key of a line: trimmed, without a delimiter, and where the writer will find it
  lemma KeyIs(c: Syntax, line: string)
    requires SolidSyntax(c) && OneLine(line) && Clean(c, line) && Find(line, c.delimiter) >= 0
    ensures var key := Trim(line[..Find(line, c.delimiter)]);
            && Trimmed(key) && OneLine(key) && Clean(c, key)
            && Find(key + " " + c.delimiter, c.delimiter) == |key| + 1
  {
    var d, p := c.delimiter, Find(line, c.delimiter);
    var x, z := TrimIs(line[..p]);
    var key := Trim(line[..p]);
    assert line == x + key + (z + line[p..]);
    assert forall i :: 0 <= i < |key| ==> key[i] == line[|x| + i];
    CleanPart(c, x, key, z + line[p..]);
    var t := key + " " + d;
    assert t == key + [' '] + d;
    FirstIs(t, d);
    FirstIs(line, d);
    assert HasAt(t, d, |key| + 1);
    var j := Find(t, d);
    if j < |key| + 1 {
      HasBesideSpace(key, ' ', d, d, j);
      HasInPart(x, key, z + line[p..], d, j);
      assert false;
    }
  }

  /** Whatever the reader makes of an entry passes the check. */
  lemma EntryOk(c: Syntax, line: string, value: string)
    requires SolidSyntax(c) && OneLine(line) && Clean(c, line) && Find(line, c.delimiter) >= 0
    requires ValueOk(c, value)
    ensures WfEntry(c, Entry(Trim(line[..Find(line, c.delimiter)]), Trim(value)))
  {
    var e := Entry(Trim(line[..Find(line, c.delimiter)]), Trim(value));
    KeyIs(c, line);
    TrimLeftOk(c, value);
    TrimRightOk(c, TrimLeft(value));
    var _, _ := TrimIs(value);
    DelimiterParts(line, c.delimiter);
    CleanPart(c, line[..Find(line, c.delimiter)], c.delimiter, line[Find(line, c.delimiter) + |c.delimiter|..]);
    FirstLineOk(c, e);
  }

  lemma FirstLineOk(c: Syntax, e: Entry)
    requires SolidSyntax(c) && Clean(c, e.key) && Clean(c, c.delimiter) && ValueOk(c, e.value)
    ensures Clean(c, FirstLine(c, e)) && AllPlain(c, Lines(e.value)[1..])
  {
    CleanBesideSpace(c, e.key, ' ', c.delimiter);
    CleanBesideSpace(c, e.key + " " + c.delimiter, ' ', Lines(e.value)[0]);
  }

  ghost predicate AllPass(c: Syntax, contents: map<string, string>) {
    forall k :: k in contents ==> WfEntry(c, Entry(k, contents[k]))
  }

  // The outer loop
  lemma {:induction false} ReadAllOk(c: Syntax, s: Stream, nextLine: string, contents: map<string, string>)
    requires SolidSyntax(c) && AllPass(c, contents) && OneLine(nextLine)
    ensures AllPass(c, ReadAll(c, s, nextLine, contents))
    decreases Left(s), |nextLine|
  {
    hide WfEntry, SpaceFree, Uncomment, HasSentry, GetLine, ReadOn, Trim, ValueOk, OneLine;
    if s.fail && nextLine == "" {
      ReadAllDone(c, s, contents);
    } else {
      ReadAllStep(c, s, nextLine, contents);
      var (s1, whole) := if nextLine != "" then (s, nextLine) else GetLine(s, "");
      EmptyIsOneLine();
      GetLineIs(s, "");
      GetLineLeft(s, nextLine);
      UncommentIs(c, whole);
      var line := Uncomment(c, whole);
      var p := Find(line, c.delimiter);
      if !HasSentry(c, line) && p < 0 {
        ReadAllOk(c, s1, "", contents);
      } else if !HasSentry(c, line) {
        var rest := line[p + |c.delimiter|..];
        RestOk(c, line);
        ReadOnOk(c, s1, rest, "");
        ReadOnLeft(c, s1, rest);
        var (s2, value, next) := ReadOn(c, s1, rest, "");
        EntryOk(c, line, value);
        ReadAllOk(c, s2, next, contents[Trim(line[..p]) := Trim(value)]);
      }
    }
  }

  lemma EmptyIsOneLine()
    ensures OneLine("")
  {
  }

  lemma GetLineLeft(s: Stream, nextLine: string)
    requires !s.fail || nextLine != ""
    ensures nextLine == "" ==> Left(GetLine(s, "").0) < Left(s)
  {
  }

  lemma RestOk(c: Syntax, line: string)
    requires OneLine(line) && Clean(c, line) && Find(line, c.delimiter) >= 0
    ensures ValueOk(c, line[Find(line, c.delimiter) + |c.delimiter|..])
  {
    var n := Find(line, c.delimiter) + |c.delimiter|;
    var rest := line[n..];
    LinesOfOne(rest);
    assert line == line[..n] + rest + "";
    CleanPart(c, line[..n], rest, "");
  }

  /** Nothing that does not pass the check is ever read, from any text. */
  lemma StoredPasses(c: Syntax, text: string)
    requires SolidSyntax(c)
    ensures AllPass(c, ReadAll(c, Open(text), "", map[]))
  {
    ReadAllOk(c, Open(text), "", map[]);
  }

  /** So a map survives saving and loading exactly when all its entries pass the check. */
  lemma MapRoundTripIff(c: Syntax, contents: map<string, string>, keys: seq<string>)
    requires SolidSyntax(c) && (forall k :: k in keys <==> k in contents)
    ensures ReadAll(c, Open(Text(c, EntriesOf(contents, keys))), "", map[]) == contents <==>
              WfEntries(c, EntriesOf(contents, keys))
  {
    hide WfEntry, ReadAll, Text;
    var entries := EntriesOf(contents, keys);
    if WfEntries(c, entries) { MapRoundTrip(c, contents, keys); }
    if ReadAll(c, Open(Text(c, entries)), "", map[]) == contents {
      StoredPasses(c, Text(c, entries));
      forall i | 0 <= i < |entries| ensures WfEntry(c, entries[i]) {
        assert keys[i] in contents;
      }
    }
  }
}
