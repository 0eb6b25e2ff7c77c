/** What the reader of a configuration file makes of lines that the writer never writes:
    comments, blank lines, lines without a delimiter, and the sentry. */
module ConfigLines {
  import opened ConfigFiles
  import opened ConfigStored
  import opened Sequences

  /** Stripping a comment keeps what stands before the first comment mark, and a line without
      one as it is. */
  lemma CommentIsCut(c: Syntax, line: string)
    requires WfSyntax(c)
    ensures var cut, m := Uncomment(c, line), |c.comment|;
            && cut <= line
            && (cut == line || (|cut| + m <= |line| && line[|cut|..|cut| + m] == c.comment))
            && (forall j, k :: 0 <= j <= k <= |line| && line[j..k] == c.comment ==> cut != line && |cut| <= j)
  {
    FirstIs(line, c.comment);
    forall j, k | 0 <= j <= k <= |line| && line[j..k] == c.comment
      ensures Uncomment(c, line) != line && |Uncomment(c, line)| <= j
    {
      assert HasAt(line, c.comment, j);
    }
  }

  /** A line without a delimiter and without the sentry is passed over: blank lines and
      whole-line comments, among others. */
  lemma LineIsSkipped(c: Syntax, line: string, rest: string, contents: map<string, string>)
    requires OneLine(line) && !Contains(Uncomment(c, line), c.delimiter)
    requires c.sentry == "" || !Contains(Uncomment(c, line), c.sentry)
    ensures ReadAll(c, Open(line + "\n" + rest), "", contents) == ReadAll(c, Open(rest), "", contents)
  {
    hide ReadAll, ReadOn, Uncomment;
    ReadAllStep(c, Open(line + "\n" + rest), "", contents);
    GetOneLine(line, rest, "");
  }

  /** Nothing is read from the sentry on, also if it was found while reading ahead. */
  lemma SentryStops(c: Syntax, line: string, rest: string, contents: map<string, string>)
    requires OneLine(line) && c.sentry != "" && Contains(Uncomment(c, line), c.sentry)
    ensures ReadAll(c, Open(line + "\n" + rest), "", contents) == contents
    ensures line != "" ==> ReadAll(c, Open(rest), line, contents) == contents
  {
    hide ReadAll, ReadOn, Uncomment;
    ReadAllStep(c, Open(line + "\n" + rest), "", contents);
    GetOneLine(line, rest, "");
    if line != "" { ReadAllStep(c, Open(rest), line, contents); }
  }

  /** A line with a delimiter or with the sentry ends a value, and is what is read next. */
  lemma NextLineEndsValue(c: Syntax, line: string, rest: string, value: string)
    requires OneLine(line) && !Blank(line)
    requires var cut := Uncomment(c, line);
             Contains(cut, c.delimiter) || (c.sentry != "" && Contains(cut, c.sentry))
    ensures ReadOn(c, Open(line + "\n" + rest), value, "") == (Open(rest), value, Uncomment(c, line))
  {
    hide ReadOn, Uncomment;
    ReadOnStep(c, Open(line + "\n" + rest), value, "");
    GetOneLine(line, rest, "");
    BlankIs(line);
  }

  /** A blank line ends a value. */
  lemma BlankEndsValue(c: Syntax, line: string, rest: string, value: string)
    requires OneLine(line) && Blank(line)
    ensures ReadOn(c, Open(line + "\n" + rest), value, "") == (Open(rest), value, line)
  {
    hide ReadOn, Uncomment, GoesOn;
    ReadOnStep(c, Open(line + "\n" + rest), value, "");
    GetOneLine(line, rest, "");
    BlankIs(line);
  }

  /** A comment on a line of its own does not end a value, unlike a blank line. */
  lemma CommentInsideValue(c: Syntax, line: string, rest: string, value: string)
    requires OneLine(line) && !Blank(line) && Blank(Uncomment(c, line)) && GoesOn(c, Uncomment(c, line))
    ensures ReadOn(c, Open(line + "\n" + rest), value, "") == ReadOn(c, Open(rest), value + Uncomment(c, line), "")
  {
    hide ReadOn, Uncomment, GoesOn;
    var cut := Uncomment(c, line);
    ReadOnStep(c, Open(line + "\n" + rest), value, "");
    GetOneLine(line, rest, "");
    BlankIs(line);
    BlankIs(cut);
    assert Extend(value, cut) == value + cut;
    AnyNext(c, rest, value + cut, cut, "");
  }

  function RemarkLine(c: Syntax, e: Entry, remark: string): string { FirstLine(c, e) + " " + c.comment + remark }

  lemma ValueIsOneLine(c: Syntax, e: Entry)
    requires OneLine(e.value)
    ensures FirstLine(c, e) == e.key + " " + c.delimiter + " " + e.value
  {
    LinesOfOne(e.value);
  }

  // The remark is cut off, and a space stays
  lemma RemarkIsCut(c: Syntax, e: Entry, remark: string)
    requires SolidSyntax(c) && WfEntry(c, e)
    ensures Uncomment(c, RemarkLine(c, e, remark)) == FirstLine(c, e) + " "
  {
    hide WfEntry, Find;
    WfParts(c, e);
    var first, line := FirstLine(c, e), RemarkLine(c, e, remark);
    FirstIs(line, c.comment);
    FirstIs(first, c.comment);
    var i := |first| + 1;
    assert line == first + [' '] + (c.comment + remark);
    assert line[i..i + |c.comment|] == c.comment;
    assert HasAt(line, c.comment, i);
    var j := Find(line, c.comment);
    if j < i {
      HasBesideSpace(first, ' ', c.comment + remark, c.comment, j);
      assert false;
    }
    assert line[..i] == first + " ";
  }

  lemma SpaceIsNoSentry(c: Syntax, line: string)
    requires SolidSyntax(c) && Clean(c, line)
    ensures !HasSentry(c, line + " ")
  {
    NothingIsClean(c);
    CleanBesideSpace(c, line, ' ', "");
    assert line + [' '] + "" == line + " ";
  }

  // What the outer loop finds in the line then: the key, and the value between spaces
  lemma RemarkLineIs(c: Syntax, e: Entry)
    requires SolidSyntax(c) && WfEntry(c, e) && OneLine(e.value)
    ensures var line := FirstLine(c, e) + " "; var p := |e.key| + 1;
            && Find(line, c.delimiter) == p && !HasSentry(c, line)
            && line[..p] == e.key + " " && line[p + |c.delimiter|..] == " " + e.value + " "
  {
    SpaceIsNoSentry(c, FirstLine(c, e));
    ValueIsOneLine(c, e);
    hide WfEntry, SolidSyntax, HasSentry, FirstLine, Find, OneLine;
    assert e.key + " " + c.delimiter + (" " + e.value + " ") == FirstLine(c, e) + " ";
    DelimiterStays(c, e, " " + e.value + " ");
    LineParts(e.key, c.delimiter, e.value + " ");
    assert FirstLine(c, e) + " " == e.key + " " + c.delimiter + " " + (e.value + " ");
    assert " " + e.value + " " == " " + (e.value + " ");
  }

  lemma DelimiterStays(c: Syntax, e: Entry, rest: string)
    requires WfEntry(c, e)
    ensures Find(e.key + " " + c.delimiter + rest, c.delimiter) == |e.key| + 1
  {
    hide Find;
    DelimiterAt(e.key, c.delimiter, rest);
  }

  lemma TrimBothEnds(s: string)
    requires Trimmed(s)
    ensures Trim(" " + s + " ") == s
  {
    var t := " " + s + " ";
    assert t[1..] == s + " ";
    TrimSpaces(s);
    assert TrimLeft(t) == TrimLeft(s + " ");
  }

  /** A remark behind an entry changes nothing: the reader stores the same key and value, and
      goes on with the entries of the following lines. */
  lemma RemarkDoesNotMatter(
      c: Syntax, e: Entry, remark: string, entries: seq<Entry>, contents: map<string, string>)
    requires SolidSyntax(c) && WfEntry(c, e) && OneLine(e.value) && OneLine(remark) && WfEntries(c, entries)
    ensures ReadAll(c, Open(RemarkLine(c, e, remark) + "\n" + Text(c, entries)), "", contents)
        == Store(contents[e.key := e.value], entries)
  {
    hide ReadAll, ReadOn, WfEntry, Uncomment, HasSentry, Find, TrimLeft, TrimRight, FirstLine, Store;
    var whole, rest := RemarkLine(c, e, remark), Text(c, entries);
    RemarkIsOneLine(c, e, remark);
    GetOneLine(whole, rest, "");
    ReadAllStep(c, Open(whole + "\n" + rest), "", contents);
    RemarkIsCut(c, e, remark);
    RemarkLineIs(c, e);
    WfParts(c, e);
    TrimSpaces(e.key);
    TrimBothEnds(e.value);
    EntriesFollow(c, " " + e.value + " ", entries);
    if entries == [] {
      ReadAllDone(c, Stream("", true, true), contents[e.key := e.value]);
      StoreNone(contents[e.key := e.value]);
    } else {
      ReadEntries(c, entries, contents[e.key := e.value]);
    }
  }

  lemma StoreNone(contents: map<string, string>)
    ensures Store(contents, []) == contents
  {
  }

  lemma RemarkIsOneLine(c: Syntax, e: Entry, remark: string)
    requires SolidSyntax(c) && WfEntry(c, e) && OneLine(remark)
    ensures OneLine(RemarkLine(c, e, remark))
  {
    FirstLineIs(c, e);
    assert OneLine(c.comment) by {
      forall i | 0 <= i < |c.comment| ensures c.comment[i] != '\n' {}
    }
    OneLineParts(FirstLine(c, e), c.comment + remark);
    assert FirstLine(c, e) + " " + (c.comment + remark) == RemarkLine(c, e, remark);
  }

  // A value ends where the next entry begins, or with the text
  lemma EntriesFollow(c: Syntax, value: string, entries: seq<Entry>)
    requires WfSyntax(c) && WfEntries(c, entries)
    ensures ReadOn(c, Open(Text(c, entries)), value, "")
        == if entries == [] then (Stream("", true, true), value, "")
           else (Open(Behind(c, entries)), value, FirstLine(c, entries[0]))
  {
    hide ReadOn, WfEntry, FirstLine, Behind, Find;
    if entries == [] {
      ReadToEnd(c, value);
    } else {
      assert WfEntry(c, entries[0]);
      FirstLineIs(c, entries[0]);
      WfParts(c, entries[0]);
      TextIs(c, entries);
      ReadToEntry(c, FirstLine(c, entries[0]), Behind(c, entries), value);
    }
  }
}
