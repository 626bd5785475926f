/** The lines of the record format (Appendix B of the freedb howto) as the writer prints them, and what
    the parser's expressions find in each of them. */
module Format {
  import opened Text
  import opened Patterns

  function HeadingLine(): string { "#" + (" " + OFFSETS_TAG) }
  function OffsetLine(offset: int): string { "#" + ("    " + Padded(8, offset)) }
  function LengthLine(length: int): string { "#" + (" " + (LENGTH_TAG + (" " + (Padded(6, length) + SECONDS)))) }
  function RevisionLine(revision: int): string { "#" + (" " + (REVISION_TAG + (" " + Padded(8, revision)))) }
  function DTitleLine(v: string): string { "DTITLE=" + v }
  function YearLine(v: string): string { "DYEAR=" + v }
  function GenreLine(v: string): string { "DGENRE=" + v }
  function TTitleLine(i: nat, v: string): string { "TTITLE" + (Decimal(i) + ("=" + v)) }
  function ExtDLine(v: string): string { "EXTD=" + v }
  function ExtTLine(i: nat, v: string): string { "EXTT" + (Decimal(i) + ("=" + v)) }

  /** A line that starts otherwise does not match a keyword. */
  lemma NotAfter(key: string, line: string)
    requires key != "" && (line == "" || key[0] != line[0])
    ensures After(key, line) == None
  {
  }

  lemma PaddedIs(w: nat, n: nat) returns (b: string)
    ensures AllBlank(b) && Padded(w, n) == b + Decimal(n)
  {
    hide Decimal, Spaces;
    var d := Decimal(n);
    if |d| < w {
      b := Spaces(w - |d|);
    } else {
      b := "";
      assert b + d == d;
    }
  }

  lemma Join(a: string, b: string, c: string)
    ensures a + (b + c) == (a + b) + c
  {
  }

  lemma PlainValue(n: nat)
    ensures MatchValue(false, Decimal(n)) == Some(n)
  {
    var d := Decimal(n);
    assert d + (Repeat(SECONDS, 0) + "") == d;
    ValueMatches(false, d, d, 0, "");
    DecimalReadsBack(n);
  }

  lemma SecondsValue(n: nat)
    ensures MatchValue(true, Decimal(n) + SECONDS) == Some(n)
  {
    var d := Decimal(n);
    assert Repeat(SECONDS, 1) + "" == SECONDS;
    ValueMatches(true, d + SECONDS, d, 1, "");
    DecimalReadsBack(n);
  }

  lemma ScanOffset(offset: nat)
    ensures MatchNumber("", false, OffsetLine(offset)) == Some(offset)
  {
    var b := PaddedIs(8, offset);
    var d := Decimal(offset);
    Join("    ", b, d);
    assert "" + ("" + d) == d;
    HeadMatches("", false, "    " + b, "", d);
    PlainValue(offset);
  }

  lemma ScanLength(length: nat)
    ensures MatchNumber(LENGTH_TAG, true, LengthLine(length)) == Some(length)
  {
    var b := PaddedIs(6, length);
    var d := Decimal(length);
    Join(b, d, SECONDS);
    Join(" ", b, d + SECONDS);
    HeadMatches(LENGTH_TAG, true, " ", " " + b, d + SECONDS);
    SecondsValue(length);
  }

  lemma ScanRevision(revision: nat)
    ensures MatchNumber(REVISION_TAG, false, RevisionLine(revision)) == Some(revision)
  {
    var b := PaddedIs(8, revision);
    var d := Decimal(revision);
    Join(" ", b, d);
    HeadMatches(REVISION_TAG, false, " ", " " + b, d);
    PlainValue(revision);
  }

  lemma ScanDTitle(v: string)
    ensures ScanLine(DTitleLine(v)).dtitle == Some(Split(v))
  {
    AfterOf("DTITLE=", v);
  }

  lemma ScanYear(year: Option<nat>)
    ensures var line := YearLine(if year.Some? then Decimal(year.value) else "");
      ScanLine(line).dtitle == None && ScanLine(line).year == Some(if year.Some? then year.value else 0)
  {
    var v := if year.Some? then Decimal(year.value) else "";
    AfterOf("DYEAR=", v);
    assert YearLine(v)[1] == 'Y';
    if year.Some? { DecimalReadsBack(year.value); }
  }

  lemma ScanGenre(v: string)
    ensures var s := ScanLine(GenreLine(v)); s.genre == Some(v) && s.year == None && s.dtitle == None
  {
    AfterOf("DGENRE=", v);
    assert GenreLine(v)[1] == 'G';
  }

  lemma ScanTTitle(i: nat, v: string)
    ensures var s := ScanLine(TTitleLine(i, v));
      s.ttitle == Some((i, Split(v))) && s.genre == None && s.year == None && s.dtitle == None
  {
    DecimalReadsBack(i);
    IndexedLineMatches("TTITLE", TTitleLine(i, v), Decimal(i), v);
    assert TTitleLine(i, v)[0] == 'T';
  }

  lemma ScanExtD(v: string)
    ensures var s := ScanLine(ExtDLine(v));
      s.extd == Some(v) && s.ttitle == None && s.genre == None && s.year == None && s.dtitle == None
  {
    AfterOf("EXTD=", v);
    assert ExtDLine(v)[0] == 'E';
    NotAfter("TTITLE", ExtDLine(v));
  }

  lemma ScanExtT(i: nat, v: string)
    ensures var s := ScanLine(ExtTLine(i, v));
      s.extt == Some((i, v)) && s.extd == None && s.ttitle == None && s.genre == None && s.year == None
      && s.dtitle == None
  {
    DecimalReadsBack(i);
    IndexedLineMatches("EXTT", ExtTLine(i, v), Decimal(i), v);
    assert ExtTLine(i, v)[0] == 'E' && ExtTLine(i, v)[3] == 'T';
    NotAfter("TTITLE", ExtTLine(i, v));
  }

  lemma ScanOrder()
    ensures var s := ScanLine("PLAYORDER=");
      s.order && s.extt == None && s.extd == None && s.ttitle == None
  {
    NotAfter("TTITLE", "PLAYORDER=");
    NotAfter("EXTT", "PLAYORDER=");
    NotAfter("EXTD=", "PLAYORDER=");
  }

  // --- the comment lines that carry nothing

  lemma ScanXmcd()
    ensures !ScanLine("# xmcd").heading
  {
    var line := "# xmcd";
    assert line[1..] == " xmcd";
    assert " xmcd"[1..] == "xmcd";
    assert DropBlanks(" xmcd") == "xmcd";
    NotAfter(OFFSETS_TAG, "xmcd");
  }

  lemma ScanHash()
    ensures var s := ScanLine("#");
      !s.heading && s.offset == None && s.length == None && s.revision == None && s.dtitle == None
  {
    assert "#"[1..] == "";
  }

  lemma ScanHeading()
    ensures MatchHeading(OFFSETS_TAG, HeadingLine())
  {
    var line := HeadingLine();
    assert line[1..] == " " + OFFSETS_TAG;
    DropBlanksOf(" ", OFFSETS_TAG);
    AfterOf(OFFSETS_TAG, "");
    assert OFFSETS_TAG + "" == OFFSETS_TAG;
  }

  /** A line that is not a DTITLE line is passed over while the machine waits for one. */
  lemma ScanOther(line: string)
    requires line != "" && (line[0] != 'D' || (|line| > 1 && line[1] != 'T'))
    ensures ScanLine(line).dtitle == None
  {
  }
}
